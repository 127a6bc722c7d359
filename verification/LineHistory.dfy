/** history_t of console.cpp: the lines entered so far and a view that moves through them. */
module LineHistory {
  import opened Wrappers

  /** `viewing` is None where the source stores SIZE_MAX; `backup` is the line that was being edited. */
  datatype History<T> = History(entries: seq<T>, viewing: Option<nat>, backup: T) {
    predicate Valid() {
      viewing.Some? ==> viewing.value <= |entries|
    }
  }

  function EndViewing<T>(h: History<T>, empty: T): History<T> {
    h.(viewing := None, backup := empty)
  }

  function BeginViewing<T>(h: History<T>, line: T): History<T> {
    h.(viewing := Some(|h.entries|), backup := line)
  }

  function Add<T(==)>(h: History<T>, line: T, empty: T): (r: History<T>)
    ensures line != empty ==> r.Valid() && r.entries != [] && r.entries[|r.entries| - 1] == line
  {
    if line == empty then h
    else if h.entries == [] || h.entries[|h.entries| - 1] != line then
      EndViewing(h.(entries := h.entries + [line]), empty)
    else EndViewing(h, empty)
  }

  /** The history after history_t::prev and the line it hands out, if any. */
  function Prev<T>(h: History<T>): (r: (History<T>, Option<T>))
    requires h.Valid()
    ensures r.0.Valid() && r.0.entries == h.entries && r.0.backup == h.backup
  {
    if h.entries == [] || h.viewing == None then (h, None)
    else
      var i := if h.viewing.value > 0 then h.viewing.value - 1 else 0;
      (h.(viewing := Some(i)), Some(h.entries[i]))
  }

  function Next<T>(h: History<T>, empty: T): (r: (History<T>, Option<T>))
    requires h.Valid()
    ensures r.0.Valid() && r.0.entries == h.entries
  {
    if h.entries == [] || h.viewing == None then (h, None)
    else
      var i := h.viewing.value + 1;
      if i >= |h.entries| then (EndViewing(h, empty), Some(h.backup))
      else (h.(viewing := Some(i)), Some(h.entries[i]))
  }

  class HistoryBuffer<T(==)> {
    const empty: T
    var entries: seq<T>
    var viewingIdx: Option<nat>
    var backupLine: T

    function State(): History<T>
      reads this
    {
      History(entries, viewingIdx, backupLine)
    }

    constructor (empty: T)
      ensures this.empty == empty && State() == History([], None, empty)
    {
      this.empty, entries, viewingIdx, backupLine := empty, [], None, empty;
    }

    method AddLine(line: T)
      modifies this
      ensures State() == Add(old(State()), line, empty)
    {
      if line == empty {
        return;
      }
      if entries == [] || entries[|entries| - 1] != line {
        entries := entries + [line];
      }
      StopViewing();
    }

    method PrevLine() returns (line: Option<T>)
      requires State().Valid()
      modifies this
      ensures (State(), line) == Prev(old(State()))
    {
      if entries == [] {
        return None;
      }
      if viewingIdx == None {
        return None;
      }
      if viewingIdx.value > 0 {
        viewingIdx := Some(viewingIdx.value - 1);
      }
      return Some(entries[viewingIdx.value]);
    }

    method NextLine() returns (line: Option<T>)
      requires State().Valid()
      modifies this
      ensures (State(), line) == Next(old(State()), empty)
    {
      if entries == [] || viewingIdx == None {
        return None;
      }
      viewingIdx := Some(viewingIdx.value + 1);
      if viewingIdx.value >= |entries| {
        line := Some(backupLine);
        StopViewing();
      } else {
        line := Some(entries[viewingIdx.value]);
      }
    }

    method StartViewing(line: T)
      modifies this
      ensures State() == BeginViewing(old(State()), line)
    {
      backupLine := line;
      viewingIdx := Some(|entries|);
    }

    method StopViewing()
      modifies this
      ensures State() == EndViewing(old(State()), empty)
    {
      viewingIdx := None;
      backupLine := empty;
    }
  }
}
