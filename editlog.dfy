/** The edit history that `newMain.py` keeps beside the people: an
    append-only list of timestamped actions that keeps only the newest 100. */
module EditLog {

  /** The action tag of an entry with its details payload. */
  datatype Action =
    | PersonAdded(name: string, x: real, y: real, quadrant: string)
    | PersonMoved(name: string, newX: real, newY: real, oldQuadrant: string, newQuadrant: string)
      /** Its payload also records `"method": "manual_input"`. */
    | CoordinatesEdited(name: string, oldX: real, oldY: real, newX: real, newY: real,
                        oldQuadrant: string, newQuadrant: string)
    | PersonRemoved(name: string, x: real, y: real, quadrant: string, dateAdded: string)
    | AllPeopleCleared(peopleCount: nat, peopleNames: seq<string>)
    | SessionStarted(previousTotalPeople: int, previousLastUpdated: string)
    | SessionEnded(finalPeopleCount: nat, sessionDurationSeconds: real)

  datatype EditEntry = EditEntry(timestamp: string, action: Action)

  const MaxEdits: nat := 100

  /** The newest `MaxEdits` elements of `s`, in their order. */
  function Newest(s: seq<EditEntry>): seq<EditEntry> {
    if |s| > MaxEdits then s[|s| - MaxEdits..] else s
  }

  /** The history after one `log_edit`: the new entry is last, at most
      `MaxEdits` entries are kept, and those kept are the most recent ones
      in their original order. */
  function Logged(history: seq<EditEntry>, entry: EditEntry): (r: seq<EditEntry>)
    ensures |r| == if |history| < MaxEdits then |history| + 1 else MaxEdits
    ensures r[|r| - 1] == entry
    ensures r == (history + [entry])[|history| + 1 - |r|..]
    ensures |history| < MaxEdits ==> r == history + [entry]
  {
    var appended := history + [entry];
    if |appended| > MaxEdits then appended[|appended| - MaxEdits..] else appended
  }

  /** The history after logging `entries` one by one. */
  function LoggedAll(history: seq<EditEntry>, entries: seq<EditEntry>): seq<EditEntry>
    decreases |entries|
  {
    if entries == [] then history else LoggedAll(Logged(history, entries[0]), entries[1..])
  }

  /** Trimming before appending more keeps the same newest entries. */
  lemma NewestOfNewest(s: seq<EditEntry>, t: seq<EditEntry>)
    ensures Newest(Newest(s) + t) == Newest(s + t)
  {
    if |s| > MaxEdits {
      var d := |s| - MaxEdits;
      assert s + t == s[..d] + (s[d..] + t);
      assert (s + t)[d..] == s[d..] + t;
    }
  }

  /** Logging an entry keeps the newest `MaxEdits` of the history and the entry. */
  lemma LoggedIsNewest(history: seq<EditEntry>, entry: EditEntry)
    ensures Logged(history, entry) == Newest(history + [entry])
  {
  }

  /** However many entries are logged, the history holds exactly the newest
      `MaxEdits` of everything logged, oldest first. */
  lemma {:induction false} LoggedAllKeepsNewest(history: seq<EditEntry>, entries: seq<EditEntry>)
    requires |history| <= MaxEdits
    ensures LoggedAll(history, entries) == Newest(history + entries)
    decreases |entries|
  {
    if entries == [] {
      assert history + entries == history;
    } else {
      var e, rest := entries[0], entries[1..];
      var h1 := Logged(history, e);
      assert LoggedAll(history, entries) == LoggedAll(h1, rest);
      LoggedAllKeepsNewest(h1, rest);
      LoggedIsNewest(history, e);
      NewestOfNewest(history + [e], rest);
      assert history + [e] + rest == history + entries;
    }
  }
}
