/** The people store of `main.py` (data format 2.0): the same ordered
    people dictionary and drag state as `newMain.py`, without the edit
    history or session bookkeeping. Removal does not save here. */
module PyMain {
  import opened Compass
  import opened Persist

  const Version: string := "2.0"

  /** The `metadata` object `save_data` writes for these people at time `now`. */
  function DocumentMetadata(people: OMap<Point>, now: Clock): Metadata {
    Metadata(Some(now.seconds), Some(|people.keys|), Some(Version), None, None)
  }

  /** The document `save_data` writes for this state at time `now`. */
  ghost function Document(people: OMap<Point>, now: Clock): Doc {
    Wrapped(Some(DocumentMetadata(people, now)), None, Snapshot(people, now.seconds))
  }

  class PersonalityCompass {
    var people: OMap<Point>
    /** The name being dragged, or None. */
    var dragging: Option<string>
    /** Pointer minus point position at the start of the drag. */
    var dragOffset: (real, real)
    /** The document last written to the data file during this session. */
    var saved: Option<Doc>

    ghost predicate Valid()
      reads this
    {
      && people.Valid()
      && (dragging.None? ==> dragOffset == (0.0, 0.0))
      // a drag starts only on a name that Python treats as true
      && (dragging.Some? ==> dragging.value != "")
    }

    /** `__init__` followed by `load_data`, which is only called there. */
    constructor Open(file: LoadInput)
      requires file.Parsed? ==> file.doc.people.Valid()
      ensures Valid()
      ensures dragging == None && saved == None
      ensures people == if file.Parsed? then Restored(file.doc.people) else Empty()
    {
      people := Empty();
      dragging := None;
      dragOffset := (0.0, 0.0);
      saved := None;
      new;
      if file.Parsed? {
        people := RestorePeople(file.doc.people);
      }
    }

    /** The dictionary `save_data` builds. */
    method BuildDocument(now: Clock) returns (doc: Doc)
      requires Valid()
      ensures doc == Document(people, now)
      ensures doc.Wrapped? && doc.metadata.Some? && doc.metadata.value.totalPeople == Some(|people.keys|)
      ensures doc.metadata.value.version == Some("2.0")
      ensures Restored(doc.people) == people
    {
      var stored := SnapshotPeople(people, now.seconds);
      doc := Wrapped(Some(DocumentMetadata(people, now)), None, stored);
      RoundTrip(people, now.seconds);
    }

    /** `save_data`: write the whole snapshot to the data file. */
    method SaveData(now: Clock)
      requires Valid()
      modifies this`saved
      ensures saved == Some(Document(people, now))
    {
      var doc := BuildDocument(now);
      saved := Some(doc);
    }

    /** `add_person` with the entry field's text. */
    method AddPerson(entry: string, now: Clock) returns (outcome: AddOutcome)
      requires Valid()
      modifies this`people, this`saved
      ensures Valid()
      ensures var name := Strip(entry, IsPySpace);
        && (outcome == EmptyName <==> name == [])
        && (outcome == AlreadyOnGrid <==> name != [] && name in old(people.items))
        && (outcome != Added ==> people == old(people) && saved == old(saved))
        && (outcome == Added ==>
              && people == old(people).Put(name, Point(0.0, 0.0, GnattyNpc, now.seconds))
              && people.keys == old(people.keys) + [name]
              && saved == Some(Document(people, now)))
      ensures AllInBounds(old(people)) ==> AllInBounds(people)
      ensures QuadrantsAgree(old(people), dragging) ==> QuadrantsAgree(people, dragging)
    {
      var name := Strip(entry, IsPySpace);
      if name == [] {
        return EmptyName;
      }
      if name in people.items {
        return AlreadyOnGrid;
      }
      var x, y := 0.0, 0.0;
      var quadrant := QuadrantOf(x, y);
      people := people.Put(name, Point(x, y, quadrant, now.seconds));
      // the source saves twice in a row
      SaveData(now);
      SaveData(now);
      outcome := Added;
    }

    /** `clear_all`, once confirmed. */
    method ClearAll(now: Clock)
      requires Valid()
      modifies this`people, this`saved
      ensures Valid()
      ensures people == Empty()
      ensures saved == Some(Document(people, now))
    {
      people := Empty();
      SaveData(now);
      SaveData(now);
    }

    /** `find_person_at_point`. */
    method FindPersonAtPoint(e: MouseEvent) returns (hit: Option<string>)
      requires Valid()
      ensures !e.inAxes ==> hit == None
      ensures e.inAxes ==> IsFirstHit(people, e.x, e.y, hit)
      ensures hit == if e.inAxes then FirstHit(people, e.x, e.y) else None
    {
      if !e.inAxes {
        return None;
      }
      hit := FindFirstNear(people, e.x, e.y);
    }

    /** `remove_person`: delete only that key; nothing is saved. */
    method RemovePerson(name: string)
      requires Valid()
      modifies this`people
      ensures Valid()
      ensures people == if name in old(people.items) then old(people).Remove(name) else old(people)
      ensures AllInBounds(old(people)) ==> AllInBounds(people)
      ensures QuadrantsAgree(old(people), dragging) ==> QuadrantsAgree(people, dragging)
    {
      if name in people.items {
        people := people.Remove(name);
      }
    }

    /** `on_press`: a right click removes the person under the pointer, a
        left click on a person starts dragging it. */
    method OnPress(e: MouseEvent)
      requires Valid()
      modifies this`people, this`dragging, this`dragOffset
      ensures Valid()
      ensures var hit := if e.inAxes then FirstHit(old(people), e.x, e.y) else None;
        if hit.None? || hit.value == "" || (e.button != 1 && e.button != 3) then
          people == old(people) && dragging == old(dragging) && dragOffset == old(dragOffset)
        else if e.button == 3 then
          people == old(people).Remove(hit.value) && dragging == old(dragging) && dragOffset == old(dragOffset)
        else
          && dragging == hit
          && dragOffset == (e.x - old(people.items[hit.value]).x, e.y - old(people.items[hit.value]).y)
          && people == old(people)
    {
      if !e.inAxes {
        return;
      }
      var person := FindPersonAtPoint(e);
      if e.button == 3 {
        if person.Some? && person.value != "" {
          RemovePerson(person.value);
        }
      } else if e.button == 1 && person.Some? && person.value != "" {
        dragging := person;
        dragOffset := (e.x - people.items[person.value].x, e.y - people.items[person.value].y);
      }
    }

    /** `update_person_position`: new x and y, the quadrant is left as it was. */
    method UpdatePersonPosition(name: string, x: real, y: real)
      requires Valid()
      modifies this`people
      ensures Valid()
      ensures name in old(people.items) ==> people == old(people).Put(name, old(people.items[name]).(x := x, y := y))
      ensures name !in old(people.items) ==> people == old(people)
    {
      if name !in people.items {
        return;
      }
      people := people.Put(name, people.items[name].(x := x, y := y));
    }

    /** `on_motion`: move the dragged point to the pointer minus the offset,
        clamped to the plot; its quadrant is not recomputed here. */
    method OnMotion(e: MouseEvent)
      requires Valid()
      modifies this`people
      ensures Valid()
      ensures if dragging.Some? && e.inAxes && dragging.value in old(people.items) then
          people == old(people).Put(dragging.value,
            old(people.items[dragging.value]).(x := Clamp(e.x - dragOffset.0), y := Clamp(e.y - dragOffset.1)))
        else people == old(people)
      ensures AllInBounds(old(people)) ==> AllInBounds(people)
      ensures QuadrantsAgree(old(people), dragging) ==> QuadrantsAgree(people, dragging)
    {
      if dragging.Some? && e.inAxes {
        var newX := Clamp(e.x - dragOffset.0);
        var newY := Clamp(e.y - dragOffset.1);
        UpdatePersonPosition(dragging.value, newX, newY);
      }
    }

    /** `on_release`: recompute the dragged point's quadrant and go back to
        idle. When the dragged name has been removed during the drag, the
        dictionary lookup raises, the handler stops and the drag state is kept. */
    method OnRelease()
      requires Valid()
      modifies this`people, this`dragging, this`dragOffset
      ensures Valid()
      ensures old(dragging).Some? && old(dragging).value !in old(people.items) ==>
        people == old(people) && dragging == old(dragging) && dragOffset == old(dragOffset)
      ensures old(dragging).None? || old(dragging).value in old(people.items) ==>
        dragging == None && dragOffset == (0.0, 0.0)
      ensures people == if old(dragging).Some? && old(dragging).value in old(people.items) then
          var p := old(people).items[old(dragging).value];
          old(people).Put(old(dragging).value, p.(quadrant := QuadrantOf(p.x, p.y)))
        else old(people)
      ensures QuadrantsAgree(old(people), old(dragging)) ==> QuadrantsAgree(people, dragging)
    {
      if dragging.Some? {
        var name := dragging.value;
        if name !in people.items {
          return;
        }
        var p := people.items[name];
        people := people.Put(name, p.(quadrant := QuadrantOf(p.x, p.y)));
      }
      dragging := None;
      dragOffset := (0.0, 0.0);
    }

    /** `cancel_drag` (Escape): back to idle; the live position is kept. */
    method CancelDrag()
      requires Valid()
      modifies this`dragging, this`dragOffset
      ensures Valid()
      ensures dragging == None && dragOffset == (0.0, 0.0)
    {
      dragging := None;
      dragOffset := (0.0, 0.0);
    }

    /** `on_closing`: save once more. */
    method OnClosing(now: Clock)
      requires Valid()
      modifies this`saved
      ensures Valid()
      ensures saved == Some(Document(people, now))
    {
      SaveData(now);
    }
  }
}
