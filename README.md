# Personality Compass people store, modelled in Dafny

Personality Compass places named people on a square grid from -100 to 100 on
both axes. Each person sits in one of four quadrants: "Gnatty NPC", "Not NPC",
"Not Non-NPC" and "Gnatty Non-NPC". The repository builds the same store three
times:

- `src/pyVersion/newMain.py`: Tkinter and matplotlib, data format 2.1, with an
  edit history.
- `src/pyVersion/main.py`: Tkinter and matplotlib, data format 2.0.
- `src/TSVersion/interactive.ts`: a React component that keeps its data in
  browser storage.

This project models that store and proves properties of the model. It covers:

- the ordered name-to-point dictionary;
- the quadrant rule;
- clamping to the grid;
- the hit-test;
- the drag state machine;
- the capped edit history;
- the documents the store saves and how loading normalises them.

Modules, one per file:

- `Compass` (`compass.dfy`): what the three programs share.
  - The quadrant rule `QuadrantOf`, which is the same in `newMain.py`,
    `main.py` (lines 157-166) and `interactive.ts` (lines 33-38).
  - `Clamp` and the whitespace `Strip` (Python `str.strip`, JavaScript `trim`).
  - `OMap`, an insertion-ordered dictionary for Python dicts and JSON objects.
    Assigning to an existing key keeps its place. Deleting a key keeps the
    order of the others.
  - The first-hit search `FindFirstNear`, proved against its specification
    `FirstHit`.
- `EditLog` (`editlog.dfy`): the history entries of `newMain.py` and the rule
  that keeps only the newest 100.
- `Persist` (`persist.dfy`): the JSON document of the Python programs, in its
  wrapped or legacy shape, with the loops that turn it into the store and back.
- `PyNewMain` (`pynewmain.dfy`): the class of `newMain.py`. Its fields are the
  people dictionary, drag state, edit history, session start and the last
  document written.
- `PyMain` (`pymain.dfy`): the class of `main.py`.
- `TsInteractive` (`tsinteractive.dfy`):
  - The component's state, as a class whose handlers replace it.
  - Its list operations (`filter`, `map`, `some`) as functions.
  - The record `saveData` writes, built by a loop proved against `Record`.
  - Loading, proved to give back every saved person with a fresh id.

The class invariant `Valid` of `newMain.py`'s class says four things:

- the dictionary is well formed;
- the history holds at most 100 entries;
- an idle store has a zero drag offset;
- a drag is only ever on a non-empty name.

`main.py`'s class has no history, so its `Valid` says the other three.

In the TypeScript model `Valid` says that names are unique and that an idle
component has a zero drag offset.

Behaviours kept as the source has them:

- In both Python programs, dragging moves a point without touching its
  quadrant. Only a release recomputes it, so a point dragged and then
  cancelled with Escape keeps a stale quadrant. `QuadrantsAgree` therefore
  exempts the dragged name. The TypeScript component recomputes the quadrant
  on every move.
- Cancelling a drag keeps the point where it was last moved to.
- Loading takes stored coordinates as they are, without clamping.
- `on_release` when the dragged name was deleted mid-drag (a right click
  during a drag):
  - the dictionary lookup raises, so the handler stops;
  - the drag state stays as it was;
  - the model leaves the state unchanged.
- `remove_person` in `main.py` does not save.
- `on_release` in both Python programs does not save.
- `add_person` and `clear_all` in both Python programs save twice in a row.
- JavaScript's `||` replaces an empty text as well as a missing one. The
  save/load round trip of the TypeScript store therefore needs non-empty
  dates and quadrants.
- `saveData` and `exportData` assign each person into a plain object. For a
  person named "__proto__" that assignment calls the prototype setter, so the
  written record has no entry for that person while `totalPeople` still
  counts it. `Record` skips that name, and a reload loses that person.

## Model

| member | source | states |
|---|---|---|
| Compass.QuadrantOf | src/pyVersion/newMain.py:228-237 | the result is one of the four labels; each label is returned exactly when its sign condition holds, with 0 counted as non-negative, so (0,0) is "Gnatty NPC" |
| Compass.Clamp | src/pyVersion/newMain.py:457-458 | the result lies in [-100, 100]; a value inside is kept, one above becomes 100 and one below -100 |
| Compass.Strip | src/pyVersion/newMain.py:334 | the result is the part of the typed text between its leading and trailing whitespace: neither of its ends is whitespace, and it is empty exactly when the text is all whitespace |
| Compass.OMap.Put | src/pyVersion/newMain.py:361 | assigning a key sets its value; a new key goes last and an existing key keeps its place |
| Compass.OMap.Remove | src/pyVersion/newMain.py:520 | deleting a key removes that key only and keeps the dictionary well formed |
| Compass.Empty | src/pyVersion/newMain.py:407 | a cleared dictionary has no keys |
| Compass.WithoutDeletesSlot | src/pyVersion/newMain.py:520 | deleting a present key takes exactly its slot out of the key order |
| Compass.FirstHitIsFirst | src/pyVersion/newMain.py:421-434 | the hit-test answer is a person strictly within 5 units on both axes with none such earlier in insertion order, or None when nobody is that close |
| Compass.FirstHitUnique | src/pyVersion/newMain.py:421-434 | at most one answer meets that description |
| Compass.FindFirstNear | src/pyVersion/newMain.py:426-434 | the loop over the people returns the first hit in insertion order, or None |
| EditLog.Logged | src/pyVersion/newMain.py:198-209 | after one entry is logged, the history has min(n+1, 100) entries, ends with the new entry and keeps the most recent older entries in order |
| EditLog.LoggedAllKeepsNewest | src/pyVersion/newMain.py:205-209 | after any number of entries are logged, the history is exactly the newest 100 of everything logged, oldest first |
| Persist.RestorePeople | src/pyVersion/newMain.py:586-619 | the load loop gives the same names in file order, with `date_added` defaulting to "Unknown" and the quadrant to that of the unclamped stored position |
| Persist.SnapshotPeople | src/pyVersion/newMain.py:552-559 | the save loop writes every person's x, y, quadrant and date added under its name, in order, with the save time as last moved |
| Persist.RoundTrip | src/pyVersion/newMain.py:552-597 | saving and loading back gives the same dictionary: the same names in the same order, positions, quadrants and dates |
| Persist.LoadDefaults | src/pyVersion/newMain.py:593-597 | an entry with only a position loads with the quadrant of that position and an "Unknown" date |
| PyNewMain.PersonalityCompass.Open | src/pyVersion/newMain.py:567-632 | loading takes people from the `people` key or the legacy bare object, restores the edit history, and logs `session_started` with the previous total and update time; a missing or unreadable file gives an empty store |
| PyNewMain.PersonalityCompass.LogEdit | src/pyVersion/newMain.py:198-209 | the history becomes the logged history with the new timestamped entry |
| PyNewMain.PersonalityCompass.BuildDocument | src/pyVersion/newMain.py:536-559 | the saved document records a count equal to the number of people, version 2.1, the history, and a people object that loads back to the same people |
| PyNewMain.PersonalityCompass.SaveData | src/pyVersion/newMain.py:536-565 | the file then holds the document of the current state |
| PyNewMain.PersonalityCompass.AddPerson | src/pyVersion/newMain.py:333-390 | an empty stripped name or one already present changes nothing; otherwise only the new name is added, last, at (0,0) in "Gnatty NPC", one `person_added` entry is logged and the store is saved |
| PyNewMain.PersonalityCompass.UpdateCoordinates | src/pyVersion/newMain.py:268-320 | with no selection, a non-number or a missing name nothing changes; otherwise the position becomes the clamped input, the quadrant that of the clamped position, one `coordinates_edited` entry records old and new values, and the store is saved |
| PyNewMain.PersonalityCompass.EditListed | src/pyVersion/newMain.py:280-320 | the edit of a listed name: clamped position, recomputed quadrant, one log entry, a save, and no other name changes |
| PyNewMain.PersonalityCompass.UpdatePersonPosition | src/pyVersion/newMain.py:484-502 | only that name's x and y change; its quadrant and date stay |
| PyNewMain.PersonalityCompass.FindPersonAtPoint | src/pyVersion/newMain.py:421-434 | outside the plot the answer is None; inside it is the first hit |
| PyNewMain.PersonalityCompass.RemovePerson | src/pyVersion/newMain.py:504-529 | an absent name changes nothing; a present one logs `person_removed` with its last position, quadrant and date, deletes only that key and saves |
| PyNewMain.PersonalityCompass.ClearAll | src/pyVersion/newMain.py:392-419 | one `all_people_cleared` entry records the count and every name in order, then the dictionary is empty and saved |
| PyNewMain.PersonalityCompass.OnPress | src/pyVersion/newMain.py:436-448 | a right click on a hit removes it as `remove_person` does; a left click on a hit starts dragging it with offset pointer minus position; anything else changes nothing |
| PyNewMain.PersonalityCompass.OnMotion | src/pyVersion/newMain.py:450-461 | while dragging inside the plot, the dragged point moves to the clamped pointer minus offset; nothing else changes and the quadrant is not recomputed |
| PyNewMain.PersonalityCompass.OnRelease | src/pyVersion/newMain.py:463-482 | the dragged point gets the quadrant of its position, one `person_moved` entry is logged and the drag state is reset; if the name is gone, nothing changes |
| PyNewMain.PersonalityCompass.CancelDrag | src/pyVersion/newMain.py:239-242 | the drag state is reset; positions and the history stay |
| PyNewMain.PersonalityCompass.OnClosing | src/pyVersion/newMain.py:634-641 | one `session_ended` entry with the final count is logged, then the store is saved |
| PyMain.PersonalityCompass.Open | src/pyVersion/main.py:377-427 | loading takes people from the `people` key or the legacy bare object with the same defaults; a missing or unreadable file gives an empty store |
| PyMain.PersonalityCompass.BuildDocument | src/pyVersion/main.py:349-369 | the saved document records a count equal to the number of people, version 2.0, and a people object that loads back to the same people |
| PyMain.PersonalityCompass.SaveData | src/pyVersion/main.py:349-375 | the file then holds the document of the current state |
| PyMain.PersonalityCompass.AddPerson | src/pyVersion/main.py:183-233 | an empty stripped name or one already present changes nothing; otherwise only the new name is added, last, at (0,0) in "Gnatty NPC", and the store is saved |
| PyMain.PersonalityCompass.ClearAll | src/pyVersion/main.py:235-255 | the dictionary becomes empty and is saved |
| PyMain.PersonalityCompass.FindPersonAtPoint | src/pyVersion/main.py:257-270 | outside the plot the answer is None; inside it is the first hit in insertion order |
| PyMain.PersonalityCompass.RemovePerson | src/pyVersion/main.py:329-342 | an absent name changes nothing; a present one deletes only that key; nothing is saved |
| PyMain.PersonalityCompass.OnPress | src/pyVersion/main.py:272-284 | a right click on a hit removes it; a left click on a hit starts dragging it with offset pointer minus position |
| PyMain.PersonalityCompass.UpdatePersonPosition | src/pyVersion/main.py:309-327 | only that name's x and y change |
| PyMain.PersonalityCompass.OnMotion | src/pyVersion/main.py:286-297 | while dragging inside the plot, the dragged point moves to the clamped pointer minus offset and stays within the grid; the quadrant is not recomputed |
| PyMain.PersonalityCompass.OnRelease | src/pyVersion/main.py:299-307 | the dragged point gets the quadrant of its position and the drag state is reset; if the name is gone, nothing changes |
| PyMain.PersonalityCompass.CancelDrag | src/pyVersion/main.py:168-171 | the drag state is reset and positions stay |
| PyMain.PersonalityCompass.OnClosing | src/pyVersion/main.py:429-432 | the store is saved |
| TsInteractive.CoordsToPercent | src/TSVersion/interactive.ts:41-44 | a position is on the grid exactly when its percentages lie in [0, 100]; the centre is at 50% and 50% |
| TsInteractive.PercentToCoords | src/TSVersion/interactive.ts:47-50 | it inverts `coordsToPercent` and maps the percentage square exactly onto the grid |
| TsInteractive.CoordsRoundTrip | src/TSVersion/interactive.ts:41-50 | converting a position to percentages and back gives the same position |
| TsInteractive.YInverted | src/TSVersion/interactive.ts:43 | a higher y is nearer the top of the page; x is unaffected |
| TsInteractive.ClampPercent | src/TSVersion/interactive.ts:169-170 | the result lies in [0, 100]; a value inside is kept |
| TsInteractive.ListedIffNamed | src/TSVersion/interactive.ts:108 | `some` finds a name exactly when it is among the names of the list |
| TsInteractive.AppendNamesUnique | src/TSVersion/interactive.ts:124 | appending a person whose name is new keeps the names unique |
| TsInteractive.WithoutId | src/TSVersion/interactive.ts:132 | the result holds exactly the people whose id differs |
| TsInteractive.WithoutIdConcat | src/TSVersion/interactive.ts:132 | filtering keeps the order of the people it keeps |
| TsInteractive.WithoutIdAbsent | src/TSVersion/interactive.ts:132 | removing an id nobody has leaves the list as it was |
| TsInteractive.WithoutIdNamesUnique | src/TSVersion/interactive.ts:132 | filtering keeps the names unique |
| TsInteractive.Moved | src/TSVersion/interactive.ts:174-178 | only the person with the dragged id changes, getting the new position, its quadrant and the new stamp; the names stay |
| TsInteractive.MovedKeepsInvariants | src/TSVersion/interactive.ts:174-178 | a move keeps names unique, keeps everyone on the grid when the new position is on it, and keeps quadrants in step with positions |
| TsInteractive.OrElse | src/TSVersion/interactive.ts:88-90 | a present non-empty text is kept; a missing or empty one takes the default |
| TsInteractive.Keyed | src/TSVersion/interactive.ts:63-64 | the people that get an own key in the record are exactly those not named "__proto__", in list order |
| TsInteractive.KeyedCount | src/TSVersion/interactive.ts:55-64 | with unique names, exactly one person fewer is keyed when someone is named "__proto__", and none fewer otherwise |
| TsInteractive.RecordKeyed | src/TSVersion/interactive.ts:63-64 | the record of a list is the record of its keyed people: a "__proto__" person contributes nothing |
| TsInteractive.RecordNames | src/TSVersion/interactive.ts:63-72 | the saved record has a key for every name on the list except "__proto__", and no other |
| TsInteractive.BuildRecord | src/TSVersion/interactive.ts:63-72 | the `forEach` loop builds the record of the list, where the assignment for "__proto__" sets the prototype and adds no key |
| TsInteractive.RecordOfUnique | src/TSVersion/interactive.ts:63-72 | with unique names, the record's keys are the names other than "__proto__" in list order, and each such entry holds that person's fields except `id` |
| TsInteractive.SavedCountMatches | src/TSVersion/interactive.ts:53-72 | `totalPeople` equals the number of entries in the saved record, plus one when a person named "__proto__" is listed |
| TsInteractive.Loaded | src/TSVersion/interactive.ts:83-91 | a loaded person keeps name and position; a missing quadrant becomes that of the position, and missing dates become the load time |
| TsInteractive.LoadedPeople | src/TSVersion/interactive.ts:83-91 | the loaded list has the record's keys as names, in record order, so the names are unique |
| TsInteractive.LoadedQuadrants | src/TSVersion/interactive.ts:89 | each entry whose quadrant is missing or empty loads with the quadrant of its position |
| TsInteractive.SaveLoadRoundTrip | src/TSVersion/interactive.ts:53-91 | saving and loading back gives every person not named "__proto__" again, in order, with only the id new; without such a person that is the whole list |
| TsInteractive.PersonalityCompass.Mount | src/TSVersion/interactive.ts:78-102 | mounting loads the stored people from `people` or the bare record; absent or unparsable storage gives an empty list |
| TsInteractive.PersonalityCompass.SaveData | src/TSVersion/interactive.ts:53-75 | storage then holds the record of the given list, which has no "__proto__" entry, with the list's length and version 2.0 |
| TsInteractive.PersonalityCompass.ExportData | src/TSVersion/interactive.ts:209-228 | the exported document counts every person and lists their names in order except "__proto__", which it counts but omits |
| TsInteractive.PersonalityCompass.ImportData | src/TSVersion/interactive.ts:240-265 | a parsed file replaces the list with its loaded people, which are then saved; no file or a bad file changes nothing |
| TsInteractive.PersonalityCompass.EditName | src/TSVersion/interactive.ts:283 | the name field holds the typed text |
| TsInteractive.PersonalityCompass.AddPerson | src/TSVersion/interactive.ts:105-128 | an empty trimmed name or one on the list changes nothing; otherwise exactly one person is appended at (0,0) in "Gnatty NPC", the list is saved and the field is cleared |
| TsInteractive.PersonalityCompass.RemovePerson | src/TSVersion/interactive.ts:131-136 | the list keeps everyone with another id, is saved, and the selection is cleared if it was that id |
| TsInteractive.PersonalityCompass.ClearAll | src/TSVersion/interactive.ts:139-145 | the list is empty, saved empty, and nothing is selected |
| TsInteractive.PersonalityCompass.SelectPerson | src/TSVersion/interactive.ts:332 | the clicked person becomes the selection |
| TsInteractive.PersonalityCompass.HandlePointerDown | src/TSVersion/interactive.ts:148-163 | the pressed person is dragged and selected, with the given offset |
| TsInteractive.PersonalityCompass.HandlePointerMove | src/TSVersion/interactive.ts:165-181 | without a drag nothing changes; otherwise only the dragged person moves to the clamped position on the grid, with its quadrant recomputed; nothing is saved |
| TsInteractive.PersonalityCompass.HandlePointerUp | src/TSVersion/interactive.ts:183-189 | the list is saved only if a drag was on, and the drag state is always reset |
| TsInteractive.PersonalityCompass.HandleKeyDown | src/TSVersion/interactive.ts:193-201 | Escape resets the drag state and keeps the list; Delete or Backspace removes the selected person; other keys change nothing |

## Left out

- Rendering is not modelled. This covers Tkinter widgets, matplotlib scatter and annotation handles, `canvas.draw`, the list widget's text and JSX markup. None of it changes the store.
- `hide_folder` is not modelled. It runs operating-system commands and writes files.
- Files, JSON text, browser storage, the export download and `FileReader` are not modelled. Reads become a `LoadInput` or `Source` value. A save becomes the written document kept in a field, with no write failures.
- Confirmation and alert dialogs are not modelled. `clear_all` and `clearAll` are taken as confirmed. Messages become returned outcomes.
- Clocks and random ids are parameters: the formatted time, the fresh id, and `freshId(i)` for the i-th loaded entry.
- `OnClosing` in `newMain.py` takes the session duration as a parameter. The time arithmetic is not modelled.
- Pixel geometry from `getBoundingClientRect` is not modelled. `HandlePointerMove` takes the pointer position as unclamped percentages with the drag offset already subtracted. `HandlePointerDown` takes the offset as given. The guard `!gridRef.current` is taken to pass.
- `delete_selected_person`, `edit_coordinates` and `on_person_select` are not modelled. They recover a name from the list widget's text, so the model takes the selected name directly.
- `update_listbox` is not modelled; it is display only.
- Floating point is not modelled. Coordinates are exact reals, so there is no NaN, infinity or rounding. `CoordsRoundTrip` holds over reals only.
- Exceptions partway through a Python load are not modelled, for example an entry without `x`. Such a load leaves the store partly filled.
- Entries without a number `x` or `y` in a TypeScript load are not modelled. JavaScript does not throw there: it loads `undefined` and takes a quadrant from it. `SavedPerson` requires both coordinates.
- Legacy bare objects whose people use one of the document's own key names are not modelled. The cases are:
  - A person named "people": both Python programs read the file as the wrapped shape, so that person's entry is taken as the whole people object.
  - A person named "edit_history", in `newMain.py`: that person's entry becomes the edit history, and the `log_edit` that follows fails on it. The exception handler then leaves an empty store whose history is that entry.
  - A person named "edit_history", in `main.py`: that person loads like any other.
  - A person named "metadata", in `newMain.py`: the `session_started` entry takes its previous total and update time from that person's entry.
  - A person named "people", in `interactive.ts`: `parsed.people || parsed` takes that person's entry as the record, so its fields (`name`, `x`, `y` and so on) load as people.
- JavaScript puts integer-like keys first in an object's key order. The model keeps plain insertion order.
- React batching and stale closures are not modelled. Each handler sees the latest state.
- `Compass.Strip` is not simplified: `IsPySpace` is exactly the set of characters Python's `str.isspace` accepts, and `IsJsSpace` is exactly the set JavaScript's `trim` removes.
- Separate clock reads are not modelled. Each handler takes one `Clock` or `now`, so stamps that the source reads separately are equal in the model. This affects:
  - `Persist.Stored`: every person's `last_moved` gets the same time, which is also the document's `last_updated`;
  - `TsInteractive.Loaded`: the `dateAdded` and `lastMoved` defaults of every loaded entry get the same time;
  - the `saved == Some(Document(..., now))` contracts of `PyNewMain.PersonalityCompass.AddPerson`, `PyMain.PersonalityCompass.AddPerson` and the other saving handlers: the two saves in a row write the same document.
