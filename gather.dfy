/** `async_map`: apply a coroutine to every element with `asyncio.gather`,
    then drop the falsy (`None`) results with `filter(None, ...)`. The calls
    are modelled one after another; only their results matter here. */
module Gather {
  import opened Wrappers

  /** `asyncio.gather` over the outcomes of all calls: the results in input
      order, or the exception when any call raised. */
  function GatherAll<B>(outcomes: seq<Outcome<B>>): Outcome<seq<B>>
  {
    if outcomes == [] then Returned([])
    else match outcomes[0]
      case Raised => Raised
      case Returned(b) =>
        match GatherAll(outcomes[1..])
        case Raised => Raised
        case Returned(bs) => Returned([b] + bs)
  }

  /** `filter(None, results)`: keep the present results, in order. */
  function Compact<B>(results: seq<Option<B>>): seq<B>
  {
    if results == [] then []
    else if results[0].Some? then [results[0].value] + Compact(results[1..])
    else Compact(results[1..])
  }

  /** The outcomes of calling `f` on each element of `s`, in input order. */
  function MapAll<A, B>(f: A -> B, s: seq<A>): (r: seq<B>)
    ensures |r| == |s| && forall i :: 0 <= i < |s| ==> r[i] == f(s[i])
  {
    seq(|s|, i requires 0 <= i < |s| => f(s[i]))
  }

  /** `async_map(f, s)`: it raises exactly when one of the calls raised;
      otherwise it yields the present results of the calls in input order,
      so never more than it was given, and exactly as many when no call
      returned `None`. */
  function AsyncMap<A, B>(f: A -> Outcome<Option<B>>, s: seq<A>): (r: Outcome<seq<B>>)
    ensures r.Raised? <==> exists i :: 0 <= i < |s| && f(s[i]).Raised?
    ensures r.Returned? ==> GatherAll(MapAll(f, s)).Returned?
    ensures r.Returned? ==>
      var results := GatherAll(MapAll(f, s)).value;
      && |results| == |s|
      && (forall i :: 0 <= i < |s| ==> f(s[i]) == Returned(results[i]))
      && r.value == Compact(results)
      && |r.value| <= |s|
      && ((forall i :: 0 <= i < |s| ==> results[i].Some?) ==> |r.value| == |s|)
  {
    GatherAllSpec(MapAll(f, s));
    match GatherAll(MapAll(f, s))
    case Raised => Raised
    case Returned(results) =>
      CompactKeepsOrder(results, 0);
      assert results[0..] == results;
      CompactAllPresent(results);
      Returned(Compact(results))
  }

  /** Gathering raises exactly when one of the calls raised, and otherwise
      yields each call's result at that call's position. */
  lemma {:induction false} GatherAllSpec<B>(outcomes: seq<Outcome<B>>)
    ensures GatherAll(outcomes).Raised? <==> exists i :: 0 <= i < |outcomes| && outcomes[i].Raised?
    ensures GatherAll(outcomes).Returned? ==>
      |GatherAll(outcomes).value| == |outcomes|
      && forall i :: 0 <= i < |outcomes| ==> outcomes[i] == Returned(GatherAll(outcomes).value[i])
  {
    if outcomes != [] {
      GatherAllSpec(outcomes[1..]);
      assert forall i :: 1 <= i < |outcomes| ==> outcomes[i] == outcomes[1..][i - 1];
      if outcomes[0].Returned? && GatherAll(outcomes[1..]).Raised? {
        var j :| 0 <= j < |outcomes[1..]| && outcomes[1..][j].Raised?;
        assert outcomes[j + 1].Raised?;
      }
    }
  }

  /** The positions from `from` on whose result `filter(None, ...)` keeps. */
  function Kept<B>(results: seq<Option<B>>, from: nat): seq<nat>
    requires from <= |results|
    decreases |results| - from
  {
    if from == |results| then []
    else if results[from].Some? then [from] + Kept(results, from + 1)
    else Kept(results, from + 1)
  }

  /** `filter(None, ...)` keeps the present results in their input order and
      nothing else: the kept positions increase strictly, each holds the
      corresponding output, and a position is kept exactly when its result
      is present. */
  lemma {:induction false} CompactKeepsOrder<B>(results: seq<Option<B>>, from: nat)
    requires from <= |results|
    decreases |results| - from
    ensures |Kept(results, from)| == |Compact(results[from..])| <= |results| - from
    ensures forall k :: 0 <= k < |Kept(results, from)| ==>
      from <= Kept(results, from)[k] < |results|
      && results[Kept(results, from)[k]] == Some(Compact(results[from..])[k])
    ensures forall k, l :: 0 <= k < l < |Kept(results, from)| ==> Kept(results, from)[k] < Kept(results, from)[l]
    ensures forall i :: from <= i < |results| ==> (results[i].Some? <==> i in Kept(results, from))
  {
    if from < |results| {
      CompactKeepsOrder(results, from + 1);
      assert results[from..][1..] == results[from + 1..];
    }
  }

  /** When every result is present, `filter(None, ...)` keeps all of them. */
  lemma {:induction false} CompactAllPresent<B>(results: seq<Option<B>>)
    ensures (forall i :: 0 <= i < |results| ==> results[i].Some?) ==>
      && |Compact(results)| == |results|
      && (forall i :: 0 <= i < |results| ==> Compact(results)[i] == results[i].value)
  {
    if results != [] {
      CompactAllPresent(results[1..]);
    }
  }

  /** A call that returns `None` for every element leaves nothing. */
  lemma {:induction false} CompactAllAbsent<B>(results: seq<Option<B>>)
    requires forall i :: 0 <= i < |results| ==> results[i].None?
    ensures Compact(results) == []
  {
    if results != [] {
      CompactAllAbsent(results[1..]);
    }
  }

  /** `filter(None, ...)` leaves nothing exactly when every result is `None`. */
  lemma {:induction false} CompactEmptyIff<B>(results: seq<Option<B>>)
    ensures Compact(results) == [] <==> forall i :: 0 <= i < |results| ==> results[i].None?
  {
    if results != [] {
      CompactEmptyIff(results[1..]);
      assert forall i :: 1 <= i < |results| ==> results[i] == results[1..][i - 1];
    }
  }
}
