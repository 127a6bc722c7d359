/** common_chat_msg::set_tool_call_ids: one identifier per tool call index, kept for the whole stream. */
module ToolCallIds {
  import opened ChatTypes
  import opened ChatDiff

  /** The cache once it covers `calls`; `gen(i)` is what the generator returns when asked for index i. */
  function ExtendedCache(calls: seq<ToolCall>, ids: seq<string>, gen: nat -> string): (r: seq<string>)
    ensures |r| == if |calls| < |ids| then |ids| else |calls|
    decreases |calls| - |ids|
  {
    if |calls| <= |ids| then ids
    else
      var own := calls[|ids|].id;
      ExtendedCache(calls, ids + [if own == "" then gen(|ids|) else own], gen)
  }

  function WithIds(calls: seq<ToolCall>, ids: seq<string>): (r: seq<ToolCall>)
    requires |calls| <= |ids|
    ensures |r| == |calls|
  {
    seq(|calls|, i requires 0 <= i < |calls| => calls[i].(id := ids[i]))
  }

  class IdCache {
    var ids: seq<string>

    constructor ()
      ensures ids == []
    {
      ids := [];
    }

    method SetToolCallIds(msg: Msg, gen: nat -> string) returns (msg': Msg)
      modifies this
      ensures ids == ExtendedCache(msg.toolCalls, old(ids), gen)
      ensures msg' == msg.(toolCalls := WithIds(msg.toolCalls, ids))
    {
      var calls := msg.toolCalls;
      var i := 0;
      while i < |calls|
        invariant 0 <= i <= |calls| == |msg.toolCalls| && i <= |ids|
        invariant ExtendedCache(msg.toolCalls, ids, gen) == ExtendedCache(msg.toolCalls, old(ids), gen)
        invariant i == |ids| || ids == old(ids)
        invariant forall k :: 0 <= k < i ==> calls[k] == msg.toolCalls[k].(id := ids[k])
        invariant forall k :: i <= k < |calls| ==> calls[k] == msg.toolCalls[k]
      {
        if |ids| <= i {
          var id := calls[i].id;
          if id == "" {
            id := gen(i);
          }
          ids := ids + [id];
        }
        calls := calls[i := calls[i].(id := ids[i])];
        i := i + 1;
      }
      assert calls == WithIds(msg.toolCalls, ids);
      return msg.(toolCalls := calls);
    }
  }

  /** An identifier, once fixed for an index, never changes. */
  lemma {:induction false} CacheOnlyGrows(calls: seq<ToolCall>, ids: seq<string>, gen: nat -> string)
    ensures ids <= ExtendedCache(calls, ids, gen)
    decreases |calls| - |ids|
  {
    if |calls| > |ids| {
      var own := calls[|ids|].id;
      CacheOnlyGrows(calls, ids + [if own == "" then gen(|ids|) else own], gen);
    }
  }

  /** Tool calls that only grow, whatever identifiers the parser gave them this time. */
  predicate CallsGrowButIds(a: seq<ToolCall>, b: seq<ToolCall>) {
    && |a| <= |b|
    && (forall i :: 0 <= i < |a| ==> a[i].name == b[i].name && a[i].arguments <= b[i].arguments)
    && (forall i :: 0 <= i < |a| - 1 ==> a[i].arguments == b[i].arguments)
  }

  predicate ExtendsButIds(a: Msg, b: Msg) {
    a.reasoning <= b.reasoning && a.content <= b.content && CallsGrowButIds(a.toolCalls, b.toolCalls)
  }

  predicate ChainButIds(prev: Msg, run: seq<Msg>)
    decreases |run|
  {
    run != [] ==> ExtendsButIds(prev, run[0]) && ChainButIds(run[0], run[1..])
  }

  /** The messages of a stream after set_tool_call_ids has been applied to each with the same cache. */
  function Identified(run: seq<Msg>, ids: seq<string>, gen: nat -> string): (r: seq<Msg>)
    ensures |r| == |run|
    decreases |run|
  {
    if run == [] then []
    else
      var ids' := ExtendedCache(run[0].toolCalls, ids, gen);
      [run[0].(toolCalls := WithIds(run[0].toolCalls, ids'))] + Identified(run[1..], ids', gen)
  }

  function FinalCache(run: seq<Msg>, ids: seq<string>, gen: nat -> string): seq<string>
    decreases |run|
  {
    if run == [] then ids else FinalCache(run[1..], ExtendedCache(run[0].toolCalls, ids, gen), gen)
  }

  lemma {:induction false} FinalCacheGrows(run: seq<Msg>, ids: seq<string>, gen: nat -> string)
    ensures ids <= FinalCache(run, ids, gen)
    decreases |run|
  {
    if run != [] {
      CacheOnlyGrows(run[0].toolCalls, ids, gen);
      FinalCacheGrows(run[1..], ExtendedCache(run[0].toolCalls, ids, gen), gen);
    }
  }

  /** In every message of a stream, the call with index k carries the same identifier. */
  lemma {:induction false} IdsNeverChange(run: seq<Msg>, ids: seq<string>, gen: nat -> string, i: nat, k: nat)
    requires i < |run| && k < |run[i].toolCalls|
    ensures k < |Identified(run, ids, gen)[i].toolCalls| && k < |FinalCache(run, ids, gen)|
    ensures Identified(run, ids, gen)[i].toolCalls[k] == run[i].toolCalls[k].(id := FinalCache(run, ids, gen)[k])
    decreases |run|
  {
    var ids' := ExtendedCache(run[0].toolCalls, ids, gen);
    if i == 0 {
      FinalCacheGrows(run[1..], ids', gen);
    } else {
      IdsNeverChange(run[1..], ids', gen, i - 1, k);
    }
  }

  /**
   Whatever identifiers the parser produced from one partial parse to the next, the identified messages
   of a growing run extend each other, so their deltas rebuild the last one.
   */
  lemma {:induction false} IdentifiedChain(prev: Msg, run: seq<Msg>, ids: seq<string>, gen: nat -> string)
    requires |prev.toolCalls| <= |ids|
    requires ChainButIds(prev, run)
    ensures Chain(prev.(toolCalls := WithIds(prev.toolCalls, ids)), Identified(run, ids, gen))
    decreases |run|
  {
    if run != [] {
      var ids' := ExtendedCache(run[0].toolCalls, ids, gen);
      CacheOnlyGrows(run[0].toolCalls, ids, gen);
      var first := run[0].(toolCalls := WithIds(run[0].toolCalls, ids'));
      assert Extends(prev.(toolCalls := WithIds(prev.toolCalls, ids)), first);
      IdentifiedChain(run[0], run[1..], ids', gen);
      assert Identified(run, ids, gen)[1..] == Identified(run[1..], ids', gen);
    }
  }

  /** From the empty message and an empty cache, a growing run streams without error and adds up to its last message. */
  lemma IdentifiedRunRebuilds(run: seq<Msg>, gen: nat -> string)
    requires run != []
    requires ChainButIds(EMPTY_MSG, run)
    ensures var sent := Identified(run, [], gen);
            var last := sent[|sent| - 1];
            && RunDiffs(EMPTY_MSG, sent).Ok?
            && ApplyAll(EMPTY_MSG, RunDiffs(EMPTY_MSG, sent).value).(role := last.role) == last
  {
    IdentifiedChain(EMPTY_MSG, run, [], gen);
    assert EMPTY_MSG.(toolCalls := WithIds([], [])) == EMPTY_MSG;
    ChainRebuilds(EMPTY_MSG, Identified(run, [], gen));
  }

  lemma {:induction false} CacheEntry(calls: seq<ToolCall>, ids: seq<string>, gen: nat -> string, k: nat)
    requires |ids| <= k < |calls|
    ensures ExtendedCache(calls, ids, gen)[k] == if calls[k].id == "" then gen(k) else calls[k].id
    decreases |calls| - |ids|
  {
    var ids' := ids + [if calls[|ids|].id == "" then gen(|ids|) else calls[|ids|].id];
    if k == |ids| {
      CacheOnlyGrows(calls, ids', gen);
    } else {
      CacheEntry(calls, ids', gen, k);
    }
  }

  /**
   An identifier that the model gave is kept: where the call with index k first appears decides for the whole stream,
   and only without an identifier there the generator is asked.
   */
  lemma {:induction false} FirstIdStays(run: seq<Msg>, ids: seq<string>, gen: nat -> string, i: nat, k: nat)
    requires i < |run| && |ids| <= k < |run[i].toolCalls|
    requires forall j :: 0 <= j < i ==> |run[j].toolCalls| <= k
    ensures k < |FinalCache(run, ids, gen)|
    ensures var own := run[i].toolCalls[k].id; FinalCache(run, ids, gen)[k] == if own == "" then gen(k) else own
    decreases |run|
  {
    var ids' := ExtendedCache(run[0].toolCalls, ids, gen);
    if i == 0 {
      CacheEntry(run[0].toolCalls, ids, gen, k);
      FinalCacheGrows(run[1..], ids', gen);
    } else {
      FirstIdStays(run[1..], ids', gen, i - 1, k);
    }
  }
}
