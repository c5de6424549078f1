/** The people store of `newMain.py` (data format 2.1): the ordered people
    dictionary, the drag state, the capped edit history, the session start
    and the document last written to the data file. Plot handles, the list
    widget and dialogs are left out; dialogs become returned outcomes. */
module PyNewMain {
  import opened Compass
  import opened EditLog
  import opened Persist

  /** How `update_coordinates` ended: no list selection, an entry that is
      not a number, a selected name no longer present, or an edit. */
  datatype EditOutcome = NothingSelected | NotANumber | NotListed | Edited

  const Version: string := "2.1"

  /** The `metadata` object `save_data` writes for this state at time `now`. */
  function DocumentMetadata(people: OMap<Point>, history: seq<EditEntry>, sessionStart: Option<string>,
                            now: Clock): Metadata
  {
    Metadata(Some(now.millis), Some(|people.keys|), Some(Version), Some(|history|),
             Some(GetOr(sessionStart, now.seconds)))
  }

  /** The document `save_data` writes for this state at time `now`. */
  ghost function Document(people: OMap<Point>, history: seq<EditEntry>, sessionStart: Option<string>,
                          now: Clock): Doc
  {
    Wrapped(Some(DocumentMetadata(people, history, sessionStart, now)), Some(history), Snapshot(people, now.millis))
  }

  class PersonalityCompass {
    var people: OMap<Point>
    /** The name being dragged, or None. */
    var dragging: Option<string>
    /** Pointer minus point position at the start of the drag. */
    var dragOffset: (real, real)
    var editHistory: seq<EditEntry>
    /** Set the first time `load_data` finds or fails to read the file. */
    var sessionStart: Option<string>
    /** The document last written to the data file during this session. */
    var saved: Option<Doc>

    ghost predicate Valid()
      reads this
    {
      && people.Valid()
      && |editHistory| <= MaxEdits
      && (dragging.None? ==> dragOffset == (0.0, 0.0))
      // a drag starts only on a name that Python treats as true
      && (dragging.Some? ==> dragging.value != "")
    }

    /** `__init__` followed by `load_data`, which is only called there. */
    constructor Open(file: LoadInput, now: Clock)
      requires file.Parsed? ==> file.doc.people.Valid()
      ensures Valid()
      ensures dragging == None && saved == None
      ensures !file.Parsed? ==> people == Empty() && editHistory == []
      ensures file.NoFile? ==> sessionStart == None
      ensures file.Unreadable? ==> sessionStart == Some(now.seconds)
      ensures file.Parsed? ==>
        && people == Restored(file.doc.people)
        && sessionStart == Some(now.seconds)
        && editHistory == Logged(HistoryOf(file.doc),
                                 EditEntry(now.millis, SessionStarted(PreviousTotal(file.doc), PreviousUpdated(file.doc))))
    {
      people := Empty();
      dragging := None;
      dragOffset := (0.0, 0.0);
      editHistory := [];
      sessionStart := None;
      saved := None;
      new;
      match file {
        case NoFile =>
        case Unreadable =>
          sessionStart := Some(now.seconds);
        case Parsed(doc) =>
          editHistory := HistoryOf(doc);
          sessionStart := Some(now.seconds);
          LogEdit(SessionStarted(PreviousTotal(doc), PreviousUpdated(doc)), now);
          people := RestorePeople(doc.people);
      }
    }

    /** `log_edit`: append, then keep only the newest 100 entries. */
    method LogEdit(action: Action, now: Clock)
      modifies this`editHistory
      ensures editHistory == Logged(old(editHistory), EditEntry(now.millis, action))
    {
      editHistory := editHistory + [EditEntry(now.millis, action)];
      if |editHistory| > MaxEdits {
        editHistory := editHistory[|editHistory| - MaxEdits..];
      }
    }

    /** The dictionary `save_data` builds. */
    method BuildDocument(now: Clock) returns (doc: Doc)
      requires Valid()
      ensures doc == Document(people, editHistory, sessionStart, now)
      ensures doc.Wrapped? && doc.metadata.Some? && doc.metadata.value.totalPeople == Some(|people.keys|)
      ensures Restored(doc.people) == people && HistoryOf(doc) == editHistory
    {
      var stored := SnapshotPeople(people, now.millis);
      doc := Wrapped(Some(DocumentMetadata(people, editHistory, sessionStart, now)), Some(editHistory), stored);
      RoundTrip(people, now.millis);
    }

    /** `save_data`: write the whole snapshot to the data file. */
    method SaveData(now: Clock)
      requires Valid()
      modifies this`saved
      ensures saved == Some(Document(people, editHistory, sessionStart, now))
    {
      var doc := BuildDocument(now);
      saved := Some(doc);
    }

    /** `add_person` with the entry field's text. */
    method AddPerson(entry: string, now: Clock) returns (outcome: AddOutcome)
      requires Valid()
      modifies this`people, this`editHistory, this`saved
      ensures Valid()
      ensures var name := Strip(entry, IsPySpace);
        && (outcome == EmptyName <==> name == [])
        && (outcome == AlreadyOnGrid <==> name != [] && name in old(people.items))
        && (outcome != Added ==> people == old(people) && editHistory == old(editHistory) && saved == old(saved))
        && (outcome == Added ==>
              && people == old(people).Put(name, Point(0.0, 0.0, GnattyNpc, now.seconds))
              && people.keys == old(people.keys) + [name]
              && editHistory == Logged(old(editHistory), EditEntry(now.millis, PersonAdded(name, 0.0, 0.0, GnattyNpc)))
              && saved == Some(Document(people, editHistory, sessionStart, now)))
      ensures AllInBounds(old(people)) ==> AllInBounds(people)
      ensures QuadrantsAgree(old(people), dragging) ==> QuadrantsAgree(people, dragging)
    {
      var name := Strip(entry, IsPySpace);
      if name == [] {
        return EmptyName;
      }
      if name in people.items {
        return AlreadyOnGrid;
      }
      Insert(name, now);
      outcome := Added;
    }

    /** The part of `add_person` for a new name: place it at the centre, log
        it and save. */
    method Insert(name: string, now: Clock)
      requires Valid() && name !in people.items
      modifies this`people, this`editHistory, this`saved
      ensures Valid()
      ensures people == old(people).Put(name, Point(0.0, 0.0, GnattyNpc, now.seconds))
      ensures people.keys == old(people.keys) + [name]
      ensures editHistory == Logged(old(editHistory), EditEntry(now.millis, PersonAdded(name, 0.0, 0.0, GnattyNpc)))
      ensures saved == Some(Document(people, editHistory, sessionStart, now))
    {
      var x, y := 0.0, 0.0;
      var quadrant := QuadrantOf(x, y);
      people := people.Put(name, Point(x, y, quadrant, now.seconds));
      LogEdit(PersonAdded(name, x, y, quadrant), now);
      // the source saves twice in a row
      SaveData(now);
      SaveData(now);
    }

    /** `update_person_position`: new x and y, the quadrant is left as it was. */
    method UpdatePersonPosition(name: string, x: real, y: real)
      requires Valid()
      modifies this`people
      ensures Valid()
      ensures name in old(people.items) ==> people == old(people).Put(name, old(people.items[name]).(x := x, y := y))
      ensures name !in old(people.items) ==> people == old(people)
    {
      if name !in people.items {
        return;
      }
      people := people.Put(name, people.items[name].(x := x, y := y));
    }

    /** `update_coordinates` with the selected name and the parsed entries
        (None for text that `float` rejects). */
    method UpdateCoordinates(selected: Option<string>, xEntry: Option<real>, yEntry: Option<real>, now: Clock)
      returns (outcome: EditOutcome)
      requires Valid()
      modifies this`people, this`editHistory, this`saved
      ensures Valid()
      ensures outcome == NothingSelected <==> selected.None?
      ensures outcome == NotANumber <==> selected.Some? && (xEntry.None? || yEntry.None?)
      ensures outcome == NotListed <==>
                selected.Some? && xEntry.Some? && yEntry.Some? && selected.value !in old(people.items)
      ensures outcome != Edited ==> people == old(people) && editHistory == old(editHistory) && saved == old(saved)
      ensures outcome == Edited ==>
        var x, y := Clamp(xEntry.value), Clamp(yEntry.value);
        people == old(people).Put(selected.value, Point(x, y, QuadrantOf(x, y), old(people.items[selected.value]).dateAdded))
      ensures outcome == Edited ==> people.keys == old(people.keys)
      ensures outcome == Edited ==>
        var p := old(people.items[selected.value]);
        var x, y := Clamp(xEntry.value), Clamp(yEntry.value);
        editHistory == Logged(old(editHistory), EditEntry(now.millis,
          CoordinatesEdited(selected.value, p.x, p.y, x, y, p.quadrant, QuadrantOf(x, y))))
      ensures outcome == Edited ==> saved == Some(Document(people, editHistory, sessionStart, now))
      ensures AllInBounds(old(people)) ==> AllInBounds(people)
      ensures QuadrantsAgree(old(people), dragging) ==> QuadrantsAgree(people, dragging)
    {
      if selected.None? {
        return NothingSelected;
      }
      if xEntry.None? || yEntry.None? {
        return NotANumber;
      }
      var x := Clamp(xEntry.value);
      var y := Clamp(yEntry.value);
      var name := selected.value;
      if name !in people.items {
        return NotListed;
      }
      EditListed(name, x, y, now);
      outcome := Edited;
    }

    /** The part of `update_coordinates` for a listed name, with the
        clamped coordinates. */
    method EditListed(name: string, x: real, y: real, now: Clock)
      requires Valid() && name in people.items
      modifies this`people, this`editHistory, this`saved
      ensures Valid()
      ensures var p := old(people.items[name]);
        && people == old(people).Put(name, Point(x, y, QuadrantOf(x, y), p.dateAdded))
        && editHistory == Logged(old(editHistory),
             EditEntry(now.millis, CoordinatesEdited(name, p.x, p.y, x, y, p.quadrant, QuadrantOf(x, y))))
        && saved == Some(Document(people, editHistory, sessionStart, now))
    {
      var p := people.items[name];
      var newQuadrant := QuadrantOf(x, y);
      Reposition(name, x, y);
      LogEdit(CoordinatesEdited(name, p.x, p.y, x, y, p.quadrant, newQuadrant), now);
      SaveData(now);
    }

    /** `update_person_position` followed by setting the quadrant of the new
        position, as `update_coordinates` does for a listed name. */
    method Reposition(name: string, x: real, y: real)
      requires Valid() && name in people.items
      modifies this`people
      ensures Valid()
      ensures people == old(people).Put(name, Point(x, y, QuadrantOf(x, y), old(people.items[name]).dateAdded))
    {
      var before := people;
      var p := people.items[name];
      UpdatePersonPosition(name, x, y);
      people := people.Put(name, people.items[name].(quadrant := QuadrantOf(x, y)));
      assert people.keys == before.keys;
      assert people.items == before.items[name := Point(x, y, QuadrantOf(x, y), p.dateAdded)];
    }

    /** `find_person_at_point`. */
    method FindPersonAtPoint(e: MouseEvent) returns (hit: Option<string>)
      requires Valid()
      ensures !e.inAxes ==> hit == None
      ensures e.inAxes ==> IsFirstHit(people, e.x, e.y, hit)
      ensures hit == if e.inAxes then FirstHit(people, e.x, e.y) else None
    {
      if !e.inAxes {
        return None;
      }
      hit := FindFirstNear(people, e.x, e.y);
    }

    /** `remove_person`: log the last known data, delete only that key, save. */
    method RemovePerson(name: string, now: Clock)
      requires Valid()
      modifies this`people, this`editHistory, this`saved
      ensures Valid()
      ensures name !in old(people.items) ==>
        people == old(people) && editHistory == old(editHistory) && saved == old(saved)
      ensures name in old(people.items) ==>
        var p := old(people.items[name]);
        && people == old(people).Remove(name)
        && editHistory == Logged(old(editHistory),
             EditEntry(now.millis, PersonRemoved(name, p.x, p.y, p.quadrant, p.dateAdded)))
        && saved == Some(Document(people, editHistory, sessionStart, now))
      ensures AllInBounds(old(people)) ==> AllInBounds(people)
      ensures QuadrantsAgree(old(people), dragging) ==> QuadrantsAgree(people, dragging)
    {
      if name in people.items {
        var p := people.items[name];
        LogEdit(PersonRemoved(name, p.x, p.y, p.quadrant, p.dateAdded), now);
        people := people.Remove(name);
        SaveData(now);
      }
    }

    /** `clear_all`, once confirmed: one log entry naming everybody, then empty. */
    method ClearAll(now: Clock)
      requires Valid()
      modifies this`people, this`editHistory, this`saved
      ensures Valid()
      ensures people == Empty()
      ensures editHistory == Logged(old(editHistory),
                EditEntry(now.millis, AllPeopleCleared(|old(people.keys)|, old(people.keys))))
      ensures saved == Some(Document(people, editHistory, sessionStart, now))
    {
      var cleared := people.keys;
      LogEdit(AllPeopleCleared(|cleared|, cleared), now);
      people := Empty();
      SaveData(now);
      SaveData(now);
    }

    /** `on_press`: a right click removes the person under the pointer, a
        left click on a person starts dragging it. */
    method OnPress(e: MouseEvent, now: Clock)
      requires Valid()
      modifies this`people, this`editHistory, this`saved, this`dragging, this`dragOffset
      ensures Valid()
      ensures var hit := if e.inAxes then FirstHit(old(people), e.x, e.y) else None;
        if hit.None? || hit.value == "" || (e.button != 1 && e.button != 3) then
          && people == old(people) && editHistory == old(editHistory) && saved == old(saved)
          && dragging == old(dragging) && dragOffset == old(dragOffset)
        else if e.button == 3 then
          var p := old(people.items[hit.value]);
          && people == old(people).Remove(hit.value)
          && editHistory == Logged(old(editHistory),
               EditEntry(now.millis, PersonRemoved(hit.value, p.x, p.y, p.quadrant, p.dateAdded)))
          && saved == Some(Document(people, editHistory, sessionStart, now))
          && dragging == old(dragging) && dragOffset == old(dragOffset)
        else
          && dragging == hit
          && dragOffset == (e.x - old(people.items[hit.value]).x, e.y - old(people.items[hit.value]).y)
          && people == old(people) && editHistory == old(editHistory) && saved == old(saved)
      ensures QuadrantsAgree(old(people), old(dragging)) && dragging == old(dragging) ==>
                QuadrantsAgree(people, dragging)
    {
      if !e.inAxes {
        return;
      }
      var person := FindPersonAtPoint(e);
      if e.button == 3 {
        if person.Some? && person.value != "" {
          RemovePerson(person.value, now);
        }
      } else if e.button == 1 && person.Some? && person.value != "" {
        dragging := person;
        dragOffset := (e.x - people.items[person.value].x, e.y - people.items[person.value].y);
      }
    }

    /** `on_motion`: move the dragged point to the pointer minus the offset,
        clamped to the plot; its quadrant is not recomputed here. */
    method OnMotion(e: MouseEvent)
      requires Valid()
      modifies this`people
      ensures Valid()
      ensures if dragging.Some? && e.inAxes && dragging.value in old(people.items) then
          people == old(people).Put(dragging.value,
            old(people.items[dragging.value]).(x := Clamp(e.x - dragOffset.0), y := Clamp(e.y - dragOffset.1)))
        else people == old(people)
      ensures AllInBounds(old(people)) ==> AllInBounds(people)
      ensures QuadrantsAgree(old(people), dragging) ==> QuadrantsAgree(people, dragging)
    {
      if dragging.Some? && e.inAxes {
        var newX := Clamp(e.x - dragOffset.0);
        var newY := Clamp(e.y - dragOffset.1);
        UpdatePersonPosition(dragging.value, newX, newY);
      }
    }

    /** `on_release`: recompute the dragged point's quadrant, log the move
        and go back to idle. When the dragged name has been removed during
        the drag, the dictionary lookup raises, the handler stops and the
        drag state is kept. */
    method OnRelease(now: Clock)
      requires Valid()
      modifies this`people, this`editHistory, this`dragging, this`dragOffset
      ensures Valid()
      ensures old(dragging).None? ==>
        && people == old(people) && editHistory == old(editHistory)
        && dragging == None && dragOffset == (0.0, 0.0)
      ensures old(dragging).Some? && old(dragging).value !in old(people.items) ==>
        && people == old(people) && editHistory == old(editHistory)
        && dragging == old(dragging) && dragOffset == old(dragOffset)
      ensures old(dragging).Some? && old(dragging).value in old(people.items) ==>
        var name := old(dragging).value;
        var p := old(people.items[name]);
        var q := QuadrantOf(p.x, p.y);
        && people == old(people).Put(name, p.(quadrant := q))
        && editHistory == Logged(old(editHistory), EditEntry(now.millis, PersonMoved(name, p.x, p.y, p.quadrant, q)))
        && dragging == None && dragOffset == (0.0, 0.0)
      ensures QuadrantsAgree(old(people), old(dragging)) ==> QuadrantsAgree(people, dragging)
    {
      if dragging.Some? {
        var name := dragging.value;
        if name !in people.items {
          return;
        }
        var p := people.items[name];
        var newQuadrant := QuadrantOf(p.x, p.y);
        people := people.Put(name, p.(quadrant := newQuadrant));
        LogEdit(PersonMoved(name, p.x, p.y, p.quadrant, newQuadrant), now);
      }
      dragging := None;
      dragOffset := (0.0, 0.0);
    }

    /** `cancel_drag` (Escape): back to idle; the live position is kept. */
    method CancelDrag()
      requires Valid()
      modifies this`dragging, this`dragOffset
      ensures Valid()
      ensures dragging == None && dragOffset == (0.0, 0.0)
    {
      dragging := None;
      dragOffset := (0.0, 0.0);
    }

    /** `on_closing` with the elapsed session time in seconds. */
    method OnClosing(now: Clock, elapsed: real)
      requires Valid()
      modifies this`editHistory, this`saved
      ensures Valid()
      ensures editHistory == Logged(old(editHistory), EditEntry(now.millis,
                SessionEnded(|people.keys|, if sessionStart.Some? then elapsed else 0.0)))
      ensures saved == Some(Document(people, editHistory, sessionStart, now))
    {
      var duration := if sessionStart.Some? then elapsed else 0.0;
      LogEdit(SessionEnded(|people.keys|, duration), now);
      SaveData(now);
    }
  }
}
