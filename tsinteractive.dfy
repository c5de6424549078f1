/** The people store of the React component in `interactive.ts`: a list of
    people with fresh ids, kept in browser storage as a record keyed by name,
    with the same quadrant rule as the Python programs. The list, the
    name being typed and the drag and selection state are component state
    that each handler replaces. */
module TsInteractive {
  import opened Compass

  /** One person on the grid; `id` is fresh per load or addition. */
  datatype Person = Person(id: string, name: string, x: real, y: real,
                           dateAdded: string, quadrant: string, lastMoved: string)

  /** One entry of the saved record: every field of a person but `id`. In a
      file that was not written by this component any text field may be
      missing. */
  datatype SavedPerson = SavedPerson(name: Option<string>, x: real, y: real, dateAdded: Option<string>,
                                     quadrant: Option<string>, lastMoved: Option<string>)

  datatype SaveMetadata = SaveMetadata(lastUpdated: string, totalPeople: int, version: string)

  /** A parsed document: one with a `people` object, or a bare record of people. */
  datatype SaveDoc =
    | Wrapped(metadata: Option<SaveMetadata>, people: OMap<SavedPerson>)
    | Bare(people: OMap<SavedPerson>)

  /** What a read of browser storage or of an imported file gives: nothing,
      text that does not parse, or a parsed document. */
  datatype Source = Absent | Malformed | Parsed(doc: SaveDoc)

  const Version: string := "2.0"

  // ---------------------------------------------------------------------
  // Grid geometry: coordinates in [-100, 100] against CSS percentages

  /** Position on the grid as a percentage from the left and from the top. */
  function CoordsToPercent(x: real, y: real): (r: (real, real))
    ensures -Bound <= x <= Bound <==> 0.0 <= r.0 <= 100.0
    ensures -Bound <= y <= Bound <==> 0.0 <= r.1 <= 100.0
    ensures x == 0.0 && y == 0.0 ==> r == (50.0, 50.0)
  {
    (((x + 100.0) / 200.0) * 100.0, ((100.0 - y) / 200.0) * 100.0)
  }

  /** The inverse mapping; it takes the percentage square onto the grid. */
  function PercentToCoords(percentX: real, percentY: real): (r: (real, real))
    ensures 0.0 <= percentX <= 100.0 && 0.0 <= percentY <= 100.0 <==> InBounds(r.0, r.1)
    ensures CoordsToPercent(r.0, r.1) == (percentX, percentY)
  {
    ((percentX / 100.0) * 200.0 - 100.0, 100.0 - (percentY / 100.0) * 200.0)
  }

  /** Converting to percentages and back gives the same position. */
  lemma CoordsRoundTrip(x: real, y: real)
    ensures var p := CoordsToPercent(x, y); PercentToCoords(p.0, p.1) == (x, y)
  {
  }

  /** The y axis points up on the grid and down on the page. */
  lemma YInverted(x: real, y1: real, y2: real)
    requires y1 < y2
    ensures CoordsToPercent(x, y1).1 > CoordsToPercent(x, y2).1
    ensures CoordsToPercent(x, y1).0 == CoordsToPercent(x, y2).0
  {
  }

  /** `Math.max(0, Math.min(100, v))`. */
  function ClampPercent(v: real): (r: real)
    ensures 0.0 <= r <= 100.0
    ensures 0.0 <= v <= 100.0 ==> r == v
    ensures v > 100.0 ==> r == 100.0
    ensures v < 0.0 ==> r == 0.0
  {
    Max(0.0, Min(100.0, v))
  }

  // ---------------------------------------------------------------------
  // The list of people

  function Names(people: seq<Person>): (r: seq<string>)
    ensures |r| == |people|
    ensures forall i :: 0 <= i < |people| ==> r[i] == people[i].name
  {
    seq(|people|, i requires 0 <= i < |people| => people[i].name)
  }

  ghost predicate NamesUnique(people: seq<Person>) {
    forall i, j :: 0 <= i < j < |people| ==> people[i].name != people[j].name
  }

  ghost predicate AllOnGrid(people: seq<Person>) {
    forall p :: p in people ==> InBounds(p.x, p.y)
  }

  ghost predicate QuadrantsMatch(people: seq<Person>) {
    forall p :: p in people ==> p.quadrant == QuadrantOf(p.x, p.y)
  }

  /** `people.some(p => p.name === name)`. */
  predicate Listed(people: seq<Person>, name: string) {
    exists p :: p in people && p.name == name
  }

  lemma ListedIffNamed(people: seq<Person>, name: string)
    ensures Listed(people, name) <==> name in Names(people)
  {
    if Listed(people, name) {
      var p :| p in people && p.name == name;
      var i :| 0 <= i < |people| && people[i] == p;
      assert Names(people)[i] == name;
    }
  }

  /** Appending a person whose name is not on the list keeps names unique. */
  lemma AppendNamesUnique(people: seq<Person>, p: Person)
    requires NamesUnique(people) && p.name !in Names(people)
    ensures NamesUnique(people + [p])
  {
    var r := people + [p];
    forall i, j | 0 <= i < j < |r| ensures r[i].name != r[j].name {
      if j == |people| {
        assert Names(people)[i] == r[i].name;
      } else {
        assert r[i] == people[i] && r[j] == people[j];
      }
    }
  }

  /** `people.filter(p => p.id !== id)`. */
  function WithoutId(people: seq<Person>, id: string): (r: seq<Person>)
    ensures forall p :: p in r <==> p in people && p.id != id
    ensures |r| <= |people|
    decreases |people|
  {
    if people == [] then []
    else if people[0].id == id then WithoutId(people[1..], id)
    else [people[0]] + WithoutId(people[1..], id)
  }

  /** Filtering keeps the order: it works piece by piece on a concatenation. */
  lemma {:induction false} WithoutIdConcat(a: seq<Person>, b: seq<Person>, id: string)
    ensures WithoutId(a + b, id) == WithoutId(a, id) + WithoutId(b, id)
    decreases |a|
  {
    if a != [] {
      assert (a + b)[1..] == a[1..] + b;
      WithoutIdConcat(a[1..], b, id);
    } else {
      assert a + b == b;
    }
  }

  /** Removing an id nobody has changes nothing. */
  lemma {:induction false} WithoutIdAbsent(people: seq<Person>, id: string)
    requires forall p :: p in people ==> p.id != id
    ensures WithoutId(people, id) == people
    decreases |people|
  {
    if people != [] {
      assert people[0] in people;
      assert forall p :: p in people[1..] ==> p in people;
      WithoutIdAbsent(people[1..], id);
      assert [people[0]] + people[1..] == people;
    }
  }

  /** Filtering never creates two people with the same name. */
  lemma {:induction false} WithoutIdNamesUnique(people: seq<Person>, id: string)
    requires NamesUnique(people)
    ensures NamesUnique(WithoutId(people, id))
    decreases |people|
  {
    if people != [] {
      var rest := people[1..];
      TailNamesUnique(people);
      WithoutIdNamesUnique(rest, id);
      if people[0].id != id {
        var t := WithoutId(rest, id);
        FirstNameNotLater(people, t);
        ConsNamesUnique(people[0], t);
        assert WithoutId(people, id) == [people[0]] + t;
      }
    }
  }

  lemma TailNamesUnique(people: seq<Person>)
    requires people != [] && NamesUnique(people)
    ensures NamesUnique(people[1..])
  {
    var rest := people[1..];
    forall i, j | 0 <= i < j < |rest| ensures rest[i].name != rest[j].name {
      assert rest[i] == people[i + 1] && rest[j] == people[j + 1];
    }
  }

  lemma FirstNameNotLater(people: seq<Person>, t: seq<Person>)
    requires people != [] && NamesUnique(people)
    requires forall p :: p in t ==> p in people[1..]
    ensures forall p :: p in t ==> p.name != people[0].name
  {
    forall p | p in t ensures p.name != people[0].name {
      assert p in people[1..];
      var k :| 0 <= k < |people| - 1 && people[1..][k] == p;
      assert people[k + 1] == p;
    }
  }

  lemma ConsNamesUnique(p: Person, t: seq<Person>)
    requires NamesUnique(t)
    requires forall q :: q in t ==> q.name != p.name
    ensures NamesUnique([p] + t)
  {
    var r := [p] + t;
    forall i, j | 0 <= i < j < |r| ensures r[i].name != r[j].name {
      assert r[j] == t[j - 1];
      if i == 0 {
        assert t[j - 1] in t;
      } else {
        assert r[i] == t[i - 1];
      }
    }
  }

  /** `people.map(...)` of `handlePointerMove`: the person with that id gets
      the new position, the quadrant of it and the new stamp. */
  function Moved(people: seq<Person>, id: string, x: real, y: real, stamp: string): (r: seq<Person>)
    ensures |r| == |people|
    ensures forall i :: 0 <= i < |people| && people[i].id != id ==> r[i] == people[i]
    ensures forall i :: 0 <= i < |people| && people[i].id == id ==>
      r[i] == people[i].(x := x, y := y, quadrant := QuadrantOf(x, y), lastMoved := stamp)
    ensures Names(r) == Names(people)
  {
    seq(|people|, i requires 0 <= i < |people| =>
      if people[i].id == id then people[i].(x := x, y := y, quadrant := QuadrantOf(x, y), lastMoved := stamp)
      else people[i])
  }

  /** A move keeps the names, keeps everyone on the grid when the new
      position is on it, and keeps every quadrant in step with its position. */
  lemma MovedKeepsInvariants(people: seq<Person>, id: string, x: real, y: real, stamp: string)
    ensures NamesUnique(people) ==> NamesUnique(Moved(people, id, x, y, stamp))
    ensures AllOnGrid(people) && InBounds(x, y) ==> AllOnGrid(Moved(people, id, x, y, stamp))
    ensures QuadrantsMatch(people) ==> QuadrantsMatch(Moved(people, id, x, y, stamp))
  {
    var r := Moved(people, id, x, y, stamp);
    assert forall i :: 0 <= i < |r| ==> r[i].name == Names(r)[i] == Names(people)[i] == people[i].name;
    forall p | p in r ensures exists i :: 0 <= i < |people| && p == r[i] {
      var i :| 0 <= i < |r| && r[i] == p;
    }
    forall i | 0 <= i < |people| ensures people[i] in people {
    }
  }

  // ---------------------------------------------------------------------
  // The saved record and loading it back

  /** `||` in JavaScript: a missing or empty text takes the default. */
  function OrElse(o: Option<string>, default: string): (r: string)
    ensures o.Some? && o.value != "" ==> r == o.value
    ensures o.None? || o.value == "" ==> r == default
  {
    if o.Some? && o.value != "" then o.value else default
  }

  function Saved(p: Person): SavedPerson {
    SavedPerson(Some(p.name), p.x, p.y, Some(p.dateAdded), Some(p.quadrant), Some(p.lastMoved))
  }

  /** The one name a plain object literal does not store as an own key:
      assigning to it calls the inherited prototype setter, so
      `JSON.stringify` writes no entry for it. */
  const ProtoKey: string := "__proto__"

  /** The people that get an own key in the record, in list order: all
      but those named `ProtoKey`. */
  function Keyed(people: seq<Person>): (r: seq<Person>)
    ensures forall p :: p in r <==> p in people && p.name != ProtoKey
    ensures |r| <= |people|
    decreases |people|
  {
    if people == [] then []
    else
      var last := people[|people| - 1];
      assert people == people[..|people| - 1] + [last];
      if last.name == ProtoKey then Keyed(people[..|people| - 1])
      else Keyed(people[..|people| - 1]) + [last]
  }

  /** The record `saveData` fills: one key per name, in order of first
      appearance; a later person of the same name overwrites the entry, and
      a person named `ProtoKey` leaves no entry. */
  ghost function Record(people: seq<Person>): (r: OMap<SavedPerson>)
    ensures r.Valid()
    ensures |r.keys| <= |people|
    decreases |people|
  {
    if people == [] then Empty()
    else
      var last := people[|people| - 1];
      var init := Record(people[..|people| - 1]);
      if last.name == ProtoKey then init else init.Put(last.name, Saved(last))
  }

  /** The record has a key for every name on the list but `ProtoKey`, and no other. */
  lemma {:induction false} RecordNames(people: seq<Person>)
    ensures forall n :: n in Record(people).items <==> n in Names(people) && n != ProtoKey
    decreases |people|
  {
    if people != [] {
      var init := people[..|people| - 1];
      RecordNames(init);
      assert Names(people) == Names(init) + [people[|people| - 1].name];
    }
  }

  /** The `forEach` loop of `saveData` and `exportData`. */
  method BuildRecord(people: seq<Person>) returns (rec: OMap<SavedPerson>)
    ensures rec == Record(people)
  {
    rec := Empty();
    var i := 0;
    while i < |people|
      invariant 0 <= i <= |people|
      invariant rec == Record(people[..i])
    {
      assert people[..i + 1][..i] == people[..i];
      // assigning to `__proto__` replaces the object's prototype instead
      if people[i].name != ProtoKey {
        rec := rec.Put(people[i].name, Saved(people[i]));
      }
      i := i + 1;
    }
    assert people[..i] == people;
  }

  /** The record of a list is the record of its keyed people. */
  lemma {:induction false} RecordKeyed(people: seq<Person>)
    ensures Record(people) == Record(Keyed(people))
    decreases |people|
  {
    if people != [] {
      var init := people[..|people| - 1];
      var last := people[|people| - 1];
      var k := Keyed(init);
      RecordKeyed(init);
      if last.name != ProtoKey {
        assert (k + [last])[..|k|] == k;
      }
    }
  }

  /** Keeping only the keyed people keeps names unique. */
  lemma {:induction false} KeyedNamesUnique(people: seq<Person>)
    requires NamesUnique(people)
    ensures NamesUnique(Keyed(people))
    decreases |people|
  {
    if people != [] {
      var init := people[..|people| - 1];
      var last := people[|people| - 1];
      var k := Keyed(init);
      InitNamesUnique(people);
      KeyedNamesUnique(init);
      if last.name != ProtoKey {
        LastNameNew(people);
        forall j | 0 <= j < |k| ensures Names(k)[j] != last.name {
          assert k[j] in init;
          var i :| 0 <= i < |init| && init[i] == k[j];
          assert Names(init)[i] == k[j].name;
        }
        AppendNamesUnique(k, last);
      }
    }
  }

  /** With unique names, only a person named `ProtoKey`, if listed, is not keyed. */
  lemma {:induction false} KeyedCount(people: seq<Person>)
    requires NamesUnique(people)
    ensures |Keyed(people)| + (if ProtoKey in Names(people) then 1 else 0) == |people|
    decreases |people|
  {
    if people != [] {
      var init := people[..|people| - 1];
      var last := people[|people| - 1];
      InitNamesUnique(people);
      KeyedCount(init);
      LastNameNew(people);
      assert Names(people) == Names(init) + [last.name];
      if last.name == ProtoKey {
        assert Keyed(people) == Keyed(init);
      } else {
        assert Keyed(people) == Keyed(init) + [last];
        assert ProtoKey in Names(people) <==> ProtoKey in Names(init);
      }
    }
  }

  /** With unique names and no `ProtoKey` the record lists the names in
      list order and holds each person's fields. */
  lemma {:induction false} RecordOfKeyed(people: seq<Person>)
    requires NamesUnique(people)
    requires forall p :: p in people ==> p.name != ProtoKey
    ensures Record(people).keys == Names(people)
    ensures forall i :: 0 <= i < |people| ==> Record(people).items[people[i].name] == Saved(people[i])
    decreases |people|
  {
    if people != [] {
      var init := people[..|people| - 1];
      InitNamesUnique(people);
      assert forall p :: p in init ==> p in people;
      RecordOfKeyed(init);
      assert people[|people| - 1] in people;
      RecordStep(people);
    }
  }

  /** One step of `RecordOfKeyed`: the last person adds a new key. */
  lemma RecordStep(people: seq<Person>)
    requires people != [] && NamesUnique(people) && people[|people| - 1].name != ProtoKey
    requires var init := people[..|people| - 1];
      && Record(init).keys == Names(init)
      && forall i :: 0 <= i < |init| ==> Record(init).items[init[i].name] == Saved(init[i])
    ensures Record(people).keys == Names(people)
    ensures forall i :: 0 <= i < |people| ==> Record(people).items[people[i].name] == Saved(people[i])
  {
    RecordLast(people);
    LastNameNew(people);
    PutNewName(people, Record(people[..|people| - 1]));
  }

  /** Putting the last person's new name into a record that holds exactly
      the earlier people gives a record that holds exactly all of them. */
  lemma PutNewName(people: seq<Person>, r0: OMap<SavedPerson>)
    requires people != [] && r0.Valid()
    requires var init := people[..|people| - 1];
      && r0.keys == Names(init)
      && (forall i :: 0 <= i < |init| ==> r0.items[init[i].name] == Saved(init[i]))
      && people[|people| - 1].name !in Names(init)
    ensures var r := r0.Put(people[|people| - 1].name, Saved(people[|people| - 1]));
      && r.keys == Names(people)
      && forall i :: 0 <= i < |people| ==> r.items[people[i].name] == Saved(people[i])
  {
    var init := people[..|people| - 1];
    var last := people[|people| - 1];
    var r := r0.Put(last.name, Saved(last));
    assert last.name !in r0.items;
    assert Names(people) == Names(init) + [last.name];
    forall i | 0 <= i < |people| ensures r.items[people[i].name] == Saved(people[i]) {
      if i < |init| {
        assert init[i] == people[i];
        assert Names(init)[i] == people[i].name;
      }
    }
  }

  /** A last person with a name other than `ProtoKey` is put into the record. */
  lemma RecordLast(people: seq<Person>)
    requires people != [] && people[|people| - 1].name != ProtoKey
    ensures Record(people) == Record(people[..|people| - 1]).Put(people[|people| - 1].name, Saved(people[|people| - 1]))
  {
  }

  /** With unique names the record lists the keyed names in list order and
      holds each keyed person's fields. */
  lemma RecordOfUnique(people: seq<Person>)
    requires NamesUnique(people)
    ensures Record(people).keys == Names(Keyed(people))
    ensures forall i :: 0 <= i < |people| && people[i].name != ProtoKey ==>
      Record(people).items[people[i].name] == Saved(people[i])
  {
    var k := Keyed(people);
    RecordKeyed(people);
    KeyedNamesUnique(people);
    RecordOfKeyed(k);
    forall i | 0 <= i < |people| && people[i].name != ProtoKey
      ensures Record(people).items[people[i].name] == Saved(people[i])
    {
      assert people[i] in k;
      var j :| 0 <= j < |k| && k[j] == people[i];
    }
  }

  /** The last person's name is not among the earlier names. */
  lemma LastNameNew(people: seq<Person>)
    requires people != [] && NamesUnique(people)
    ensures people[|people| - 1].name !in Names(people[..|people| - 1])
  {
    var init := people[..|people| - 1];
    forall i | 0 <= i < |init| ensures Names(init)[i] != people[|people| - 1].name {
      assert init[i] == people[i];
    }
  }

  lemma InitNamesUnique(people: seq<Person>)
    requires people != [] && NamesUnique(people)
    ensures NamesUnique(people[..|people| - 1])
  {
    var init := people[..|people| - 1];
    forall i, j | 0 <= i < j < |init| ensures init[i].name != init[j].name {
      assert init[i] == people[i] && init[j] == people[j];
    }
  }

  /** The `metadata` object `saveData` writes for a list at time `now`. */
  function MetadataOf(people: seq<Person>, now: string): SaveMetadata {
    SaveMetadata(now, |people|, Version)
  }

  /** What `saveData` stores for a list at time `now`. */
  ghost function Document(people: seq<Person>, now: string): SaveDoc {
    Wrapped(Some(MetadataOf(people, now)), Record(people))
  }

  /** The count written beside the record is the number of its entries, plus
      one when a person named `ProtoKey` is listed but has no entry. */
  lemma SavedCountMatches(people: seq<Person>, now: string)
    requires NamesUnique(people)
    ensures Document(people, now).metadata.value.totalPeople ==
      |Document(people, now).people.keys| + (if ProtoKey in Names(people) then 1 else 0)
  {
    RecordOfUnique(people);
    KeyedCount(people);
  }

  /** `parsed.people || parsed`. */
  function PeopleOf(doc: SaveDoc): OMap<SavedPerson> {
    doc.people
  }

  /** One entry of `Object.entries(...).map(...)` in `loadData` and `importData`. */
  function Loaded(name: string, data: SavedPerson, id: string, now: string): (p: Person)
    ensures p.name == name && p.id == id && p.x == data.x && p.y == data.y
    ensures p.quadrant == OrElse(data.quadrant, QuadrantOf(data.x, data.y))
    ensures p.dateAdded == OrElse(data.dateAdded, now) && p.lastMoved == OrElse(data.lastMoved, now)
  {
    Person(id, name, data.x, data.y, OrElse(data.dateAdded, now),
           OrElse(data.quadrant, QuadrantOf(data.x, data.y)), OrElse(data.lastMoved, now))
  }

  /** The list a loaded record gives, in the record's order; `freshId(i)` is
      the id made for the i-th entry. */
  function LoadedPeople(rec: OMap<SavedPerson>, freshId: nat -> string, now: string): (r: seq<Person>)
    requires rec.Valid()
    ensures Names(r) == rec.keys
    ensures NamesUnique(r)
  {
    var r := seq(|rec.keys|, i requires 0 <= i < |rec.keys| => Loaded(rec.keys[i], rec.items[rec.keys[i]], freshId(i), now));
    assert Names(r) == rec.keys by {
      forall i | 0 <= i < |r| ensures Names(r)[i] == rec.keys[i] {
        assert r[i] == Loaded(rec.keys[i], rec.items[rec.keys[i]], freshId(i), now);
      }
    }
    r
  }

  /** A loaded entry whose quadrant is missing or empty gets the quadrant of
      its position, which is not clamped. */
  lemma LoadedQuadrants(rec: OMap<SavedPerson>, freshId: nat -> string, now: string)
    requires rec.Valid()
    ensures var r := LoadedPeople(rec, freshId, now);
      forall i :: 0 <= i < |rec.keys| && rec.items[rec.keys[i]].quadrant in {None, Some("")} ==>
        r[i].quadrant == QuadrantOf(r[i].x, r[i].y)
  {
    var r := LoadedPeople(rec, freshId, now);
    forall i | 0 <= i < |rec.keys| && rec.items[rec.keys[i]].quadrant in {None, Some("")}
      ensures r[i].quadrant == QuadrantOf(r[i].x, r[i].y)
    {
      var k := rec.keys[i];
      assert r[i] == Loaded(k, rec.items[k], freshId(i), now);
    }
  }

  /** Saving then loading gives back every keyed person, in order, with a
      fresh id, as long as the names are unique and no text field is empty
      (`||` would replace an empty one); a person named `ProtoKey` is lost. */
  lemma SaveLoadRoundTrip(people: seq<Person>, freshId: nat -> string, now: string)
    requires NamesUnique(people)
    requires forall p :: p in people ==> p.dateAdded != "" && p.quadrant != "" && p.lastMoved != ""
    ensures var r := LoadedPeople(Record(people), freshId, now);
      var k := Keyed(people);
      |r| == |k| && forall i :: 0 <= i < |k| ==> r[i] == k[i].(id := freshId(i))
    ensures ProtoKey !in Names(people) ==> Keyed(people) == people
  {
    var k := Keyed(people);
    RecordKeyed(people);
    KeyedNamesUnique(people);
    LoadKeyed(k, freshId, now);
    if ProtoKey !in Names(people) {
      KeyedAll(people);
    }
  }

  /** The round trip for a list that `Keyed` leaves as it is. */
  lemma LoadKeyed(k: seq<Person>, freshId: nat -> string, now: string)
    requires NamesUnique(k)
    requires forall p :: p in k ==> p.name != ProtoKey
    requires forall p :: p in k ==> p.dateAdded != "" && p.quadrant != "" && p.lastMoved != ""
    ensures var r := LoadedPeople(Record(k), freshId, now);
      |r| == |k| && forall i :: 0 <= i < |k| ==> r[i] == k[i].(id := freshId(i))
  {
    RecordOfKeyed(k);
    var r := LoadedPeople(Record(k), freshId, now);
    forall i | 0 <= i < |k| ensures r[i] == k[i].(id := freshId(i)) {
      var rec := Record(k);
      assert k[i] in k;
      assert rec.keys[i] == k[i].name;
      assert r[i] == Loaded(k[i].name, Saved(k[i]), freshId(i), now);
    }
  }

  /** With no person named `ProtoKey`, every person is keyed. */
  lemma {:induction false} KeyedAll(people: seq<Person>)
    requires ProtoKey !in Names(people)
    ensures Keyed(people) == people
    decreases |people|
  {
    if people != [] {
      var init := people[..|people| - 1];
      assert Names(people) == Names(init) + [people[|people| - 1].name];
      KeyedAll(init);
      assert people == init + [people[|people| - 1]];
    }
  }

  // ---------------------------------------------------------------------
  // The component

  class PersonalityCompass {
    var people: seq<Person>
    /** The text in the name field. */
    var newPersonName: string
    /** The id being dragged, or None. */
    var draggedPerson: Option<string>
    var dragOffset: (real, real)
    var selectedPerson: Option<string>
    /** The document this component last wrote to browser storage. */
    var storage: Option<SaveDoc>

    ghost predicate Valid()
      reads this
    {
      && NamesUnique(people)
      && (draggedPerson.None? ==> dragOffset == (0.0, 0.0))
    }

    /** Mounting: empty state, then `loadData` from browser storage. */
    constructor Mount(stored: Source, freshId: nat -> string, now: string)
      requires stored.Parsed? ==> PeopleOf(stored.doc).Valid()
      ensures Valid()
      ensures people == if stored.Parsed? then LoadedPeople(PeopleOf(stored.doc), freshId, now) else []
      ensures newPersonName == "" && draggedPerson == None && selectedPerson == None && storage == None
    {
      people := [];
      newPersonName := "";
      draggedPerson := None;
      dragOffset := (0.0, 0.0);
      selectedPerson := None;
      storage := None;
      new;
      if stored.Parsed? {
        people := LoadedPeople(PeopleOf(stored.doc), freshId, now);
      }
    }

    /** `saveData(updatedPeople)`. */
    method SaveData(updatedPeople: seq<Person>, now: string)
      modifies this`storage
      ensures storage == Some(Document(updatedPeople, now))
    {
      var rec := BuildRecord(updatedPeople);
      storage := Some(Wrapped(Some(MetadataOf(updatedPeople, now)), rec));
    }

    /** `exportData`: the same document, handed to a download. */
    method ExportData(now: string) returns (doc: SaveDoc)
      requires Valid()
      ensures doc == Document(people, now)
      ensures doc.metadata.value.totalPeople == |people|
      ensures doc.people.keys == Names(Keyed(people))
      ensures |doc.people.keys| + (if ProtoKey in Names(people) then 1 else 0) == |people|
    {
      var rec := BuildRecord(people);
      doc := Wrapped(Some(MetadataOf(people, now)), rec);
      RecordOfUnique(people);
      KeyedCount(people);
    }

    /** `importData` once the file is read: a parsed document replaces the
        list and is saved; no file or a file that does not parse changes nothing. */
    method ImportData(file: Source, freshId: nat -> string, now: string)
      requires Valid()
      requires file.Parsed? ==> PeopleOf(file.doc).Valid()
      modifies this`people, this`storage
      ensures Valid()
      ensures !file.Parsed? ==> people == old(people) && storage == old(storage)
      ensures file.Parsed? ==>
        people == LoadedPeople(PeopleOf(file.doc), freshId, now) && storage == Some(Document(people, now))
    {
      if !file.Parsed? {
        return;
      }
      var loaded := LoadedPeople(PeopleOf(file.doc), freshId, now);
      people := loaded;
      SaveData(loaded, now);
    }

    /** The name field's `onChange`. */
    method EditName(text: string)
      modifies this`newPersonName
      ensures newPersonName == text
    {
      newPersonName := text;
    }

    /** `addPerson` with a fresh id: the trimmed name must be non-empty and
        not on the list; the new person goes at the end, at the centre. */
    method AddPerson(id: string, now: string) returns (outcome: AddOutcome)
      requires Valid()
      modifies this`people, this`storage, this`newPersonName
      ensures Valid()
      ensures var name := Strip(old(newPersonName), IsJsSpace);
        && (outcome == EmptyName <==> name == [])
        && (outcome == AlreadyOnGrid <==> name != [] && name in Names(old(people)))
        && (outcome != Added ==>
              people == old(people) && storage == old(storage) && newPersonName == old(newPersonName))
        && (outcome == Added ==>
              && people == old(people) + [Person(id, name, 0.0, 0.0, now, GnattyNpc, now)]
              && storage == Some(Document(people, now))
              && newPersonName == "")
      ensures AllOnGrid(old(people)) ==> AllOnGrid(people)
      ensures QuadrantsMatch(old(people)) ==> QuadrantsMatch(people)
    {
      var name := Strip(newPersonName, IsJsSpace);
      if name == [] {
        return EmptyName;
      }
      ListedIffNamed(people, name);
      if Listed(people, name) {
        return AlreadyOnGrid;
      }
      var newPerson := Person(id, name, 0.0, 0.0, now, QuadrantOf(0.0, 0.0), now);
      var updated := people + [newPerson];
      AppendNamesUnique(people, newPerson);
      people := updated;
      SaveData(updated, now);
      newPersonName := "";
      outcome := Added;
    }

    /** `removePerson(id)`: keep everyone with another id, save, and drop
        the selection if it was that id. */
    method RemovePerson(id: string, now: string)
      requires Valid()
      modifies this`people, this`storage, this`selectedPerson
      ensures Valid()
      ensures people == WithoutId(old(people), id)
      ensures storage == Some(Document(people, now))
      ensures selectedPerson == if old(selectedPerson) == Some(id) then None else old(selectedPerson)
    {
      var updated := WithoutId(people, id);
      WithoutIdNamesUnique(people, id);
      people := updated;
      SaveData(updated, now);
      if selectedPerson == Some(id) {
        selectedPerson := None;
      }
    }

    /** `clearAll`, once confirmed. */
    method ClearAll(now: string)
      requires Valid()
      modifies this`people, this`storage, this`selectedPerson
      ensures Valid()
      ensures people == [] && selectedPerson == None
      ensures storage == Some(Document([], now))
    {
      people := [];
      SaveData([], now);
      selectedPerson := None;
    }

    /** Clicking a person in the side list selects it. */
    method SelectPerson(id: string)
      modifies this`selectedPerson
      ensures selectedPerson == Some(id)
    {
      selectedPerson := Some(id);
    }

    /** `handlePointerDown` on a person's dot; `offset` is the pointer's
        distance from the dot in pixels. */
    method HandlePointerDown(person: Person, offset: (real, real))
      requires Valid()
      modifies this`draggedPerson, this`dragOffset, this`selectedPerson
      ensures Valid()
      ensures draggedPerson == Some(person.id) && dragOffset == offset && selectedPerson == Some(person.id)
    {
      draggedPerson := Some(person.id);
      dragOffset := offset;
      selectedPerson := Some(person.id);
    }

    /** `handlePointerMove`; `percentX` and `percentY` are the pointer minus
        the drag offset as percentages of the grid, before clamping. Only the
        dragged person changes; nothing is saved. */
    method HandlePointerMove(percentX: real, percentY: real, now: string)
      requires Valid()
      modifies this`people
      ensures Valid()
      ensures draggedPerson.None? || draggedPerson.value == "" ==> people == old(people)
      ensures draggedPerson.Some? && draggedPerson.value != "" ==>
        var c := PercentToCoords(ClampPercent(percentX), ClampPercent(percentY));
        && people == Moved(old(people), draggedPerson.value, c.0, c.1, now)
        && InBounds(c.0, c.1)
      ensures AllOnGrid(old(people)) ==> AllOnGrid(people)
      ensures QuadrantsMatch(old(people)) ==> QuadrantsMatch(people)
    {
      if draggedPerson.None? || draggedPerson.value == "" {
        return;
      }
      var px := ClampPercent(percentX);
      var py := ClampPercent(percentY);
      var c := PercentToCoords(px, py);
      MovedKeepsInvariants(people, draggedPerson.value, c.0, c.1, now);
      people := Moved(people, draggedPerson.value, c.0, c.1, now);
    }

    /** `handlePointerUp` (also on pointer leave): save when a drag was on,
        then stop dragging. */
    method HandlePointerUp(now: string)
      requires Valid()
      modifies this`storage, this`draggedPerson, this`dragOffset
      ensures Valid()
      ensures draggedPerson == None && dragOffset == (0.0, 0.0)
      ensures old(draggedPerson).Some? && old(draggedPerson).value != "" ==> storage == Some(Document(people, now))
      ensures old(draggedPerson).None? || old(draggedPerson).value == "" ==> storage == old(storage)
    {
      if draggedPerson.Some? && draggedPerson.value != "" {
        SaveData(people, now);
      }
      draggedPerson := None;
      dragOffset := (0.0, 0.0);
    }

    /** The keyboard shortcuts: Escape stops a drag where the person is;
        Delete or Backspace removes the selected person. */
    method HandleKeyDown(key: string, now: string)
      requires Valid()
      modifies this`people, this`storage, this`selectedPerson, this`draggedPerson, this`dragOffset
      ensures Valid()
      ensures key == "Escape" ==>
        && draggedPerson == None && dragOffset == (0.0, 0.0)
        && people == old(people) && storage == old(storage) && selectedPerson == old(selectedPerson)
      ensures (key == "Delete" || key == "Backspace") && old(selectedPerson).Some? && old(selectedPerson).value != "" ==>
        && people == WithoutId(old(people), old(selectedPerson).value)
        && storage == Some(Document(people, now))
        && selectedPerson == None
        && draggedPerson == old(draggedPerson) && dragOffset == old(dragOffset)
      ensures key != "Escape" && !((key == "Delete" || key == "Backspace") && old(selectedPerson).Some? && old(selectedPerson).value != "") ==>
        && people == old(people) && storage == old(storage) && selectedPerson == old(selectedPerson)
        && draggedPerson == old(draggedPerson) && dragOffset == old(dragOffset)
    {
      if key == "Escape" {
        draggedPerson := None;
        dragOffset := (0.0, 0.0);
      } else if key == "Delete" || key == "Backspace" {
        if selectedPerson.Some? && selectedPerson.value != "" {
          RemovePerson(selectedPerson.value, now);
        }
      }
    }
  }
}
