/** The JSON document the Python programs write to `people_data.json` and
    read back, as a value: the wrapped shape with `metadata`, `edit_history`
    and `people`, or the legacy shape that is the bare people object. */
module Persist {
  import opened Compass
  import opened EditLog

  /** One person as stored; the optional fields may be missing in a file. */
  datatype StoredPoint = StoredPoint(x: real, y: real, quadrant: Option<string>,
                                     dateAdded: Option<string>, lastMoved: Option<string>)

  datatype Metadata = Metadata(lastUpdated: Option<string>, totalPeople: Option<int>, version: Option<string>,
                               totalEdits: Option<int>, sessionStarted: Option<string>)

  /** `Wrapped` is a document with a `people` key; any other document is
      read as the legacy bare name-to-point object. */
  datatype Doc =
    | Wrapped(metadata: Option<Metadata>, editHistory: Option<seq<EditEntry>>, people: OMap<StoredPoint>)
    | Legacy(people: OMap<StoredPoint>)

  /** What reading the data file gives: no file, a file that cannot be read
      or parsed, or a parsed document. */
  datatype LoadInput = NoFile | Unreadable | Parsed(doc: Doc)

  const Unknown: string := "Unknown"

  function GetOr<T>(o: Option<T>, default: T): T {
    match o
    case Some(v) => v
    case None => default
  }

  /** One loaded person: `date_added` defaults to "Unknown" and a missing
      quadrant is computed from the stored position, which is not clamped. */
  function Normalize(s: StoredPoint): Point {
    Point(s.x, s.y, GetOr(s.quadrant, QuadrantOf(s.x, s.y)), GetOr(s.dateAdded, Unknown))
  }

  /** One saved person; every person gets the same `last_moved` stamp. */
  function Stored(p: Point, stamp: string): StoredPoint {
    StoredPoint(p.x, p.y, Some(p.quadrant), Some(p.dateAdded), Some(stamp))
  }

  /** `loaded.get("edit_history", [])`. */
  function HistoryOf(d: Doc): seq<EditEntry> {
    if d.Wrapped? && d.editHistory.Some? then d.editHistory.value else []
  }

  function MetadataOf(d: Doc): Option<Metadata> {
    if d.Wrapped? then d.metadata else None
  }

  /** `loaded.get("metadata", {}).get("total_people", 0)`. */
  function PreviousTotal(d: Doc): int {
    var m := MetadataOf(d);
    if m.Some? then GetOr(m.value.totalPeople, 0) else 0
  }

  /** `loaded.get("metadata", {}).get("last_updated", "Unknown")`. */
  function PreviousUpdated(d: Doc): string {
    var m := MetadataOf(d);
    if m.Some? then GetOr(m.value.lastUpdated, Unknown) else Unknown
  }

  /** The people a loaded object gives, in the object's order. */
  ghost function Restored(stored: OMap<StoredPoint>): OMap<Point> {
    OMap(stored.keys, map k | k in stored.items :: Normalize(stored.items[k]))
  }

  /** The people object a save writes, in the store's order. */
  ghost function Snapshot(people: OMap<Point>, stamp: string): OMap<StoredPoint> {
    OMap(people.keys, map k | k in people.items :: Stored(people.items[k], stamp))
  }

  /** The loop of `load_data` over `people_data.items()`, filling an empty dictionary. */
  method RestorePeople(stored: OMap<StoredPoint>) returns (people: OMap<Point>)
    requires stored.Valid()
    ensures people.Valid()
    ensures people == Restored(stored)
  {
    people := Empty();
    var i := 0;
    while i < |stored.keys|
      invariant 0 <= i <= |stored.keys|
      invariant people.Valid()
      invariant people.keys == stored.keys[..i]
      invariant forall k :: k in people.items ==> k in stored.items && people.items[k] == Normalize(stored.items[k])
    {
      var name := stored.keys[i];
      assert name !in stored.keys[..i] by {
        assert forall j :: 0 <= j < i ==> stored.keys[..i][j] == stored.keys[j];
      }
      people := people.Put(name, Normalize(stored.items[name]));
      assert stored.keys[..i + 1] == stored.keys[..i] + [name];
      i := i + 1;
    }
    assert stored.keys[..i] == stored.keys;
    RestoredFromEntries(stored, people);
  }

  /** A dictionary with the stored keys, in order, each holding the
      normalised stored entry, is the restored dictionary. */
  lemma RestoredFromEntries(stored: OMap<StoredPoint>, people: OMap<Point>)
    requires stored.Valid() && people.Valid() && people.keys == stored.keys
    requires forall k :: k in people.items ==> k in stored.items && people.items[k] == Normalize(stored.items[k])
    ensures people == Restored(stored)
  {
    assert people.items == Restored(stored).items;
  }

  /** The loop of `save_data` over `self.people.items()`. */
  method SnapshotPeople(people: OMap<Point>, stamp: string) returns (stored: OMap<StoredPoint>)
    requires people.Valid()
    ensures stored.Valid()
    ensures stored == Snapshot(people, stamp)
  {
    stored := Empty();
    var i := 0;
    while i < |people.keys|
      invariant 0 <= i <= |people.keys|
      invariant stored.Valid()
      invariant stored.keys == people.keys[..i]
      invariant forall k :: k in stored.items ==> k in people.items && stored.items[k] == Stored(people.items[k], stamp)
    {
      var name := people.keys[i];
      assert name !in people.keys[..i] by {
        assert forall j :: 0 <= j < i ==> people.keys[..i][j] == people.keys[j];
      }
      stored := stored.Put(name, Stored(people.items[name], stamp));
      assert people.keys[..i + 1] == people.keys[..i] + [name];
      i := i + 1;
    }
    assert people.keys[..i] == people.keys;
    assert stored.items == Snapshot(people, stamp).items;
  }

  /** Saving and loading back gives the same people: same names in the same
      order, same positions, quadrants and dates of addition. */
  lemma RoundTrip(people: OMap<Point>, stamp: string)
    requires people.Valid()
    ensures Restored(Snapshot(people, stamp)) == people
  {
    var r := Restored(Snapshot(people, stamp));
    forall k | k in r.items ensures r.items[k] == people.items[k] {
      var p := people.items[k];
      assert Normalize(Stored(p, stamp)) == p;
    }
  }

  /** A legacy or older entry with only a position loads with the quadrant
      of that position and an "Unknown" date, its position unclamped. */
  lemma LoadDefaults(stored: OMap<StoredPoint>, name: string)
    requires name in stored.items
    requires stored.items[name].quadrant.None? && stored.items[name].dateAdded.None?
    ensures var p := Restored(stored).items[name];
      && p.x == stored.items[name].x && p.y == stored.items[name].y
      && p.quadrant == QuadrantOf(p.x, p.y) && p.dateAdded == Unknown
  {
  }
}
