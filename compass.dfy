/** The parts of the people store that the two Python programs and the web
    component share: the quadrant rule, clamping to the plot, the hit-test
    around a point, whitespace stripping of entered names, and the
    insertion-ordered dictionary that holds the people. */
module Compass {

  datatype Option<T> = None | Some(value: T)

  /** The current time as the programs format it: to the second (dates of
      addition, session start) and to the millisecond (log timestamps). */
  datatype Clock = Clock(seconds: string, millis: string)

  /** A mouse event on the plot: whether it lies inside the axes, its data
      coordinates there, and its button (1 left, 3 right). */
  datatype MouseEvent = MouseEvent(inAxes: bool, x: real, y: real, button: int)

  /** Why `add` did or did not insert a person. */
  datatype AddOutcome = Added | EmptyName | AlreadyOnGrid

  // ---------------------------------------------------------------------
  // Quadrants

  const GnattyNpc: string := "Gnatty NPC"
  const NotNpc: string := "Not NPC"
  const NotNonNpc: string := "Not Non-NPC"
  const GnattyNonNpc: string := "Gnatty Non-NPC"

  predicate IsQuadrantLabel(q: string) {
    q == GnattyNpc || q == NotNpc || q == NotNonNpc || q == GnattyNonNpc
  }

  /** The four-way sign split; a zero coordinate counts as non-negative. */
  function QuadrantOf(x: real, y: real): (q: string)
    ensures IsQuadrantLabel(q)
    ensures q == GnattyNpc <==> x >= 0.0 && y >= 0.0
    ensures q == NotNpc <==> x < 0.0 && y >= 0.0
    ensures q == NotNonNpc <==> x < 0.0 && y < 0.0
    ensures q == GnattyNonNpc <==> x >= 0.0 && y < 0.0
  {
    if x >= 0.0 && y >= 0.0 then GnattyNpc
    else if x < 0.0 && y >= 0.0 then NotNpc
    else if x < 0.0 && y < 0.0 then NotNonNpc
    else GnattyNonNpc
  }

  // ---------------------------------------------------------------------
  // Plot bounds

  const Bound: real := 100.0

  function Min(a: real, b: real): real { if b < a then b else a }
  function Max(a: real, b: real): real { if b > a then b else a }

  predicate InBounds(x: real, y: real) {
    -Bound <= x <= Bound && -Bound <= y <= Bound
  }

  /** `max(-100, min(100, v))`: the nearest value inside the plot. */
  function Clamp(v: real): (r: real)
    ensures -Bound <= r <= Bound
    ensures -Bound <= v <= Bound ==> r == v
    ensures v > Bound ==> r == Bound
    ensures v < -Bound ==> r == -Bound
  {
    Max(-Bound, Min(Bound, v))
  }

  // ---------------------------------------------------------------------
  // Names

  /** Python's `str.isspace`: the characters `str.strip()` removes. */
  predicate IsPySpace(c: char) {
    ('\t' <= c <= '\r') || ('\U{1C}' <= c <= '\U{1F}') || c == ' ' || c == '\U{85}' || c == '\U{A0}'
    || c == '\U{1680}' || ('\U{2000}' <= c <= '\U{200A}') || c == '\U{2028}' || c == '\U{2029}'
    || c == '\U{202F}' || c == '\U{205F}' || c == '\U{3000}'
  }

  /** The white space and line terminators JavaScript's `String.prototype.trim` removes. */
  predicate IsJsSpace(c: char) {
    ('\t' <= c <= '\r') || c == ' ' || c == '\U{A0}' || c == '\U{FEFF}'
    || c == '\U{1680}' || ('\U{2000}' <= c <= '\U{200A}') || c == '\U{2028}' || c == '\U{2029}'
    || c == '\U{202F}' || c == '\U{205F}' || c == '\U{3000}'
  }

  /** How many whitespace characters `s` starts with. */
  function LeadingSpaces(s: string, isSpace: char -> bool): (n: nat)
    ensures n <= |s|
    ensures forall k :: 0 <= k < n ==> isSpace(s[k])
    ensures n < |s| ==> !isSpace(s[n])
    decreases |s|
  {
    if s == [] || !isSpace(s[0]) then 0
    else
      var m := LeadingSpaces(s[1..], isSpace);
      assert forall k :: 1 <= k < 1 + m ==> s[k] == s[1..][k - 1];
      1 + m
  }

  /** How many whitespace characters `s` ends with. */
  function TrailingSpaces(s: string, isSpace: char -> bool): (n: nat)
    ensures n <= |s|
    ensures forall k :: |s| - n <= k < |s| ==> isSpace(s[k])
    ensures n < |s| ==> !isSpace(s[|s| - n - 1])
    decreases |s|
  {
    if s == [] || !isSpace(s[|s| - 1]) then 0
    else
      var m := TrailingSpaces(s[..|s| - 1], isSpace);
      assert forall k :: |s| - 1 - m <= k < |s| - 1 ==> s[k] == s[..|s| - 1][k];
      1 + m
  }

  /** `strip()` / `trim()`: what lies between the leading and the trailing
      white space, which both end at a non-space character. */
  function Strip(s: string, isSpace: char -> bool): (r: string)
    ensures r != [] ==> !isSpace(r[0]) && !isSpace(r[|r| - 1])
    ensures r == [] <==> forall k :: 0 <= k < |s| ==> isSpace(s[k])
    ensures var i := LeadingSpaces(s, isSpace);
      && i + |r| <= |s| && r == s[i..i + |r|]
      && (forall k :: 0 <= k < i ==> isSpace(s[k]))
      && (forall k :: i + |r| <= k < |s| ==> isSpace(s[k]))
  {
    var i := LeadingSpaces(s, isSpace);
    if i == |s| then []
    else
      var j := |s| - TrailingSpaces(s, isSpace);
      assert i < j;
      s[i..j]
  }

  // ---------------------------------------------------------------------
  // Insertion-ordered dictionary (a Python dict, a JSON object)

  /** `keys` lists the keys in insertion order; `items` holds the values. */
  datatype OMap<V> = OMap(keys: seq<string>, items: map<string, V>) {

    ghost predicate Valid() {
      Distinct(keys) &&
      (forall k :: k in items <==> k in keys)
    }

    /** `d[k] = v`: a new key goes to the end, an existing key keeps its place. */
    function Put(k: string, v: V): (r: OMap<V>)
      requires Valid()
      ensures r.Valid()
      ensures r.items == items[k := v]
      ensures k in items ==> r.keys == keys
      ensures k !in items ==> r.keys == keys + [k]
    {
      if k in items then OMap(keys, items[k := v]) else OMap(keys + [k], items[k := v])
    }

    /** `del d[k]` when `k` is present: the other keys keep their order. */
    function Remove(k: string): (r: OMap<V>)
      requires Valid()
      ensures r.Valid()
      ensures r.items == items - {k}
      ensures r.keys == Without(keys, k)
    {
      WithoutDistinct(keys, k);
      var r := OMap(Without(keys, k), items - {k});
      assert forall x :: x in r.items <==> x in r.keys;
      r
    }
  }

  function Empty<V>(): (r: OMap<V>)
    ensures r.Valid() && r.keys == [] && r.items == map[]
  {
    OMap([], map[])
  }

  /** No key occurs twice. */
  ghost predicate Distinct(s: seq<string>) {
    forall i, j :: 0 <= i < j < |s| ==> s[i] != s[j]
  }

  /** The keys of `s` other than `k`, in their order. */
  function Without(s: seq<string>, k: string): (r: seq<string>)
    ensures forall x :: x in r <==> x in s && x != k
    ensures |r| <= |s|
  {
    if s == [] then [] else (if s[0] == k then [] else [s[0]]) + Without(s[1..], k)
  }

  lemma {:induction false} WithoutDistinct(s: seq<string>, k: string)
    requires Distinct(s)
    ensures Distinct(Without(s, k))
  {
    if s != [] {
      var r := Without(s, k);
      var rest := Without(s[1..], k);
      assert Distinct(s[1..]) by {
        forall i, j | 0 <= i < j < |s| - 1 ensures s[1..][i] != s[1..][j] {
          assert s[1..][i] == s[i + 1] && s[1..][j] == s[j + 1];
        }
      }
      WithoutDistinct(s[1..], k);
      assert s[0] !in rest by {
        assert s[0] !in s[1..];
      }
      if s[0] != k {
        assert r == [s[0]] + rest;
        forall i, j | 0 <= i < j < |r| ensures r[i] != r[j] {
          if i == 0 {
            assert r[j] == rest[j - 1] && rest[j - 1] in rest;
          } else {
            assert r[i] == rest[i - 1] && r[j] == rest[j - 1];
          }
        }
      } else {
        assert r == rest;
      }
    }
  }

  /** Deleting a present key takes exactly its slot out of the order. */
  lemma {:induction false} WithoutDeletesSlot(s: seq<string>, k: string, i: nat)
    requires Distinct(s)
    requires i < |s| && s[i] == k
    ensures Without(s, k) == s[..i] + s[i + 1..]
  {
    if i == 0 {
      assert k !in s[1..];
      WithoutAbsent(s[1..], k);
      assert s[1..] == s[..0] + s[1..];
    } else {
      WithoutDeletesSlot(s[1..], k, i - 1);
      assert s[1..][..i - 1] + s[1..][i..] == s[1..i] + s[i + 1..];
      assert [s[0]] + (s[1..i] + s[i + 1..]) == s[..i] + s[i + 1..];
    }
  }

  lemma {:induction false} WithoutAbsent(s: seq<string>, k: string)
    requires k !in s
    ensures Without(s, k) == s
  {
    if s != [] {
      WithoutAbsent(s[1..], k);
      assert s == [s[0]] + s[1..];
    }
  }

  // ---------------------------------------------------------------------
  // People and the hit-test

  /** One person as the Python programs keep it (plot handles left out). */
  datatype Point = Point(x: real, y: real, quadrant: string, dateAdded: string)

  ghost predicate AllInBounds(m: OMap<Point>) {
    forall k :: k in m.items ==> InBounds(m.items[k].x, m.items[k].y)
  }

  /** Every person other than `except` carries the quadrant of its position. */
  ghost predicate QuadrantsAgree(m: OMap<Point>, except: Option<string>) {
    forall k :: k in m.items && except != Some(k) ==> m.items[k].quadrant == QuadrantOf(m.items[k].x, m.items[k].y)
  }

  const Sensitivity: real := 5.0

  function Abs(v: real): real { if v < 0.0 then -v else v }

  /** The pointer at (px, py) is strictly within 5 units of `p` on both axes. */
  predicate Hits(p: Point, px: real, py: real) {
    Abs(px - p.x) < Sensitivity && Abs(py - p.y) < Sensitivity
  }

  /** `hit` is the first key in insertion order whose point the pointer hits,
      or None when it hits none. */
  ghost predicate IsFirstHit(m: OMap<Point>, px: real, py: real, hit: Option<string>)
    requires m.Valid()
  {
    match hit
    case None => forall i :: 0 <= i < |m.keys| ==> !Hits(m.items[m.keys[i]], px, py)
    case Some(n) =>
      exists i :: 0 <= i < |m.keys| && m.keys[i] == n && Hits(m.items[n], px, py)
                  && forall j :: 0 <= j < i ==> !Hits(m.items[m.keys[j]], px, py)
  }

  /** The answer of the hit-test as a function, scanning from position `from`. */
  ghost function FirstHitFrom(m: OMap<Point>, px: real, py: real, from: nat): (r: Option<string>)
    requires m.Valid() && from <= |m.keys|
    ensures r.Some? ==> r.value in m.items && Hits(m.items[r.value], px, py)
    decreases |m.keys| - from
  {
    if from == |m.keys| then None
    else if Hits(m.items[m.keys[from]], px, py) then Some(m.keys[from])
    else FirstHitFrom(m, px, py, from + 1)
  }

  ghost function FirstHit(m: OMap<Point>, px: real, py: real): (r: Option<string>)
    requires m.Valid()
    ensures r.Some? ==> r.value in m.items && Hits(m.items[r.value], px, py)
  {
    FirstHitFrom(m, px, py, 0)
  }

  lemma {:induction false} FirstHitFromIsFirst(m: OMap<Point>, px: real, py: real, from: nat)
    requires m.Valid() && from <= |m.keys|
    requires forall j :: 0 <= j < from ==> !Hits(m.items[m.keys[j]], px, py)
    ensures IsFirstHit(m, px, py, FirstHitFrom(m, px, py, from))
    decreases |m.keys| - from
  {
    if from < |m.keys| && !Hits(m.items[m.keys[from]], px, py) {
      FirstHitFromIsFirst(m, px, py, from + 1);
    }
  }

  /** The hit-test function meets the first-hit description. */
  lemma FirstHitIsFirst(m: OMap<Point>, px: real, py: real)
    requires m.Valid()
    ensures IsFirstHit(m, px, py, FirstHit(m, px, py))
  {
    FirstHitFromIsFirst(m, px, py, 0);
  }

  /** At most one answer meets the first-hit description. */
  lemma FirstHitUnique(m: OMap<Point>, px: real, py: real, h1: Option<string>, h2: Option<string>)
    requires m.Valid()
    requires IsFirstHit(m, px, py, h1) && IsFirstHit(m, px, py, h2)
    ensures h1 == h2
  {
    if h1.Some? && h2.Some? {
      var i1 :| 0 <= i1 < |m.keys| && m.keys[i1] == h1.value && Hits(m.items[h1.value], px, py)
                && forall j :: 0 <= j < i1 ==> !Hits(m.items[m.keys[j]], px, py);
      var i2 :| 0 <= i2 < |m.keys| && m.keys[i2] == h2.value && Hits(m.items[h2.value], px, py)
                && forall j :: 0 <= j < i2 ==> !Hits(m.items[m.keys[j]], px, py);
    }
  }

  /** `find_person_at_point`'s scan over `people.items()`. */
  method FindFirstNear(people: OMap<Point>, px: real, py: real) returns (hit: Option<string>)
    requires people.Valid()
    ensures IsFirstHit(people, px, py, hit)
    ensures hit == FirstHit(people, px, py)
  {
    var i := 0;
    while i < |people.keys|
      invariant 0 <= i <= |people.keys|
      invariant forall j :: 0 <= j < i ==> !Hits(people.items[people.keys[j]], px, py)
      invariant FirstHitFrom(people, px, py, i) == FirstHit(people, px, py)
    {
      var name := people.keys[i];
      var data := people.items[name];
      if Hits(data, px, py) {
        FirstHitIsFirst(people, px, py);
        return Some(name);
      }
      i := i + 1;
    }
    hit := None;
    FirstHitIsFirst(people, px, py);
  }
}
