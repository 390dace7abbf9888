/** Proposing a block: inherents first, then transactions from the pool until the deadline or until the
    block is full. Every push runs in a storage transaction that is rolled back when the push fails.
  */
module Authorship {
  import opened ChainTree

  type State = nat
  type Extrinsic = nat
  type TxHash = nat

  /** Why an extrinsic was not applied: the block is full, a mandatory extrinsic failed, it is invalid in
      another way, or the runtime call itself failed. */
  datatype Failure = Exhausted | BadMandatory | Invalid | ApiFailed

  /** What applying an extrinsic does to the storage overlay, also when it fails. */
  datatype Application = Application(failure: Option<Failure>, overlay: State)

  datatype Inherents = Inherents(list: Option<seq<Extrinsic>>, overlay: State)

  /** The runtime, as the builder calls it. */
  datatype Runtime = Runtime(apply: (State, Extrinsic) -> Application, inherents: State -> Inherents,
                             finalizes: State -> bool)

  datatype Tx = Tx(hash: TxHash, data: Extrinsic)

  const MAX_SKIPPED_TRANSACTIONS: nat := 8

  /** Applies extrinsics one after the other, as an importing node does. */
  function Replay(rt: Runtime, s: State, xts: seq<Extrinsic>): Option<State> {
    if xts == [] then Some(s)
    else
      match Replay(rt, s, xts[..|xts| - 1])
      case None => None
      case Some(before) =>
        var a := rt.apply(before, xts[|xts| - 1]);
        if a.failure.None? then Some(a.overlay) else None
  }

  /** The block under construction. */
  datatype Draft = Draft(extrinsics: seq<Extrinsic>, state: State)

  /** The effect of one push: all of the extrinsic or nothing. */
  function Pushed(rt: Runtime, d: Draft, xt: Extrinsic): Draft {
    var a := rt.apply(d.state, xt);
    if a.failure.None? then Draft(d.extrinsics + [xt], a.overlay) else d
  }

  /** Importing the draft's extrinsics on the initialized state succeeds and gives the draft's state. */
  ghost predicate Replays(rt: Runtime, initial: State, d: Draft) { Replay(rt, initial, d.extrinsics) == Some(d.state) }

  lemma PushedReplays(rt: Runtime, initial: State, d: Draft, xt: Extrinsic)
    requires Replays(rt, initial, d)
    ensures Replays(rt, initial, Pushed(rt, d, xt))
  {
    assert (d.extrinsics + [xt])[..|d.extrinsics|] == d.extrinsics;
  }

  // ------------------------------------------------------------ inherents

  /** Pushes the inherents; a failing mandatory one ends the proposal, any other failing one is dropped. */
  function WithInherents(rt: Runtime, d: Draft, xts: seq<Extrinsic>): Option<Draft> {
    if xts == [] then Some(d)
    else
      match WithInherents(rt, d, xts[..|xts| - 1])
      case None => None
      case Some(before) =>
        var xt := xts[|xts| - 1];
        if rt.apply(before.state, xt).failure == Some(BadMandatory) then None else Some(Pushed(rt, before, xt))
  }

  /** `picks` are positions in `from`, in order, and `picked` is what stands there. */
  ghost predicate Selects(picks: seq<nat>, from: seq<Extrinsic>, picked: seq<Extrinsic>) {
    && |picks| == |picked|
    && (forall i | 0 <= i < |picks| :: picks[i] < |from| && from[picks[i]] == picked[i])
    && (forall i, j | 0 <= i < j < |picks| :: picks[i] < picks[j])
  }

  lemma SelectsNext(picks: seq<nat>, from: seq<Extrinsic>, picked: seq<Extrinsic>, xt: Extrinsic)
    requires Selects(picks, from, picked)
    ensures Selects(picks, from + [xt], picked) && Selects(picks + [|from|], from + [xt], picked + [xt])
  {
  }

  /** How many of the picks come before position `i`. */
  function Earlier(picks: seq<nat>, i: nat): nat {
    if picks == [] then 0
    else Earlier(picks[..|picks| - 1], i) + if picks[|picks| - 1] < i then 1 else 0
  }

  lemma {:induction false} EarlierBound(picks: seq<nat>, i: nat)
    ensures Earlier(picks, i) <= |picks|
    ensures (forall j | 0 <= j < |picks| :: picks[j] < i) ==> Earlier(picks, i) == |picks|
  {
    if picks != [] { EarlierBound(picks[..|picks| - 1], i); }
  }

  /** `xt` applies without failure after `before` was replayed. */
  ghost predicate Applies(rt: Runtime, initial: State, before: seq<Extrinsic>, xt: Extrinsic) {
    var s := Replay(rt, initial, before);
    s.Some? && rt.apply(s.value, xt).failure.None?
  }

  /** Of `from`, behind `base`, exactly those are picked that are tried and apply where they stand. */
  ghost predicate Takes(rt: Runtime, initial: State, base: seq<Extrinsic>, from: seq<Extrinsic>, tried: nat -> bool,
                        picks: seq<nat>, picked: seq<Extrinsic>)
  {
    && Selects(picks, from, picked)
    && forall i | 0 <= i < |from| :: TakenRightly(rt, initial, base, from, tried, picks, picked, i)
  }

  ghost predicate TakenRightly(rt: Runtime, initial: State, base: seq<Extrinsic>, from: seq<Extrinsic>,
                               tried: nat -> bool, picks: seq<nat>, picked: seq<Extrinsic>, i: nat)
    requires i < |from| && |picks| == |picked|
  {
    EarlierBound(picks, i);
    i in picks <==> tried(i) && Applies(rt, initial, base + picked[..Earlier(picks, i)], from[i])
  }

  /** One more candidate: it is picked or not, and the decisions before it stand. */
  lemma TakesNext(rt: Runtime, initial: State, base: seq<Extrinsic>, from: seq<Extrinsic>, tried: nat -> bool,
                  picks: seq<nat>, picked: seq<Extrinsic>, xt: Extrinsic, taken: bool)
    requires Takes(rt, initial, base, from, tried, picks, picked)
    requires taken <==> tried(|from|) && Applies(rt, initial, base + picked, xt)
    ensures !taken ==> Takes(rt, initial, base, from + [xt], tried, picks, picked)
    ensures taken ==> Takes(rt, initial, base, from + [xt], tried, picks + [|from|], picked + [xt])
  {
    SelectsNext(picks, from, picked, xt);
    var n := |from|;
    var ps, xs := if taken then picks + [n] else picks, if taken then picked + [xt] else picked;
    forall i | 0 <= i < n + 1 ensures TakenRightly(rt, initial, base, from + [xt], tried, ps, xs, i) {
      hide Applies, Earlier, TakenRightly, Selects;
      if i < n {
        assert TakenRightly(rt, initial, base, from, tried, picks, picked, i);
        TakenKept(rt, initial, base, from, tried, picks, picked, xt, taken, i);
      } else {
        TakenLast(rt, initial, base, from, tried, picks, picked, xt, taken);
      }
    }
  }

  lemma EarlierKept(picks: seq<nat>, n: nat, i: nat)
    requires i <= n
    ensures Earlier(picks + [n], i) == Earlier(picks, i)
  {
    assert (picks + [n])[..|picks|] == picks;
  }

  lemma TakenKept(rt: Runtime, initial: State, base: seq<Extrinsic>, from: seq<Extrinsic>, tried: nat -> bool,
                  picks: seq<nat>, picked: seq<Extrinsic>, xt: Extrinsic, taken: bool, i: nat)
    requires i < |from| && |picks| == |picked|
    requires TakenRightly(rt, initial, base, from, tried, picks, picked, i)
    ensures TakenRightly(rt, initial, base, from + [xt], tried, if taken then picks + [|from|] else picks,
                         if taken then picked + [xt] else picked, i)
  {
    hide Applies, Earlier;
    EarlierBound(picks, i);
    EarlierKept(picks, |from|, i);
    assert (picked + [xt])[..Earlier(picks, i)] == picked[..Earlier(picks, i)];
  }

  lemma TakenLast(rt: Runtime, initial: State, base: seq<Extrinsic>, from: seq<Extrinsic>, tried: nat -> bool,
                  picks: seq<nat>, picked: seq<Extrinsic>, xt: Extrinsic, taken: bool)
    requires Selects(picks, from, picked)
    requires taken <==> tried(|from|) && Applies(rt, initial, base + picked, xt)
    ensures TakenRightly(rt, initial, base, from + [xt], tried, if taken then picks + [|from|] else picks,
                         if taken then picked + [xt] else picked, |from|)
  {
    hide Applies, Earlier;
    EarlierBound(picks, |from|);
    EarlierKept(picks, |from|, |from|);
    assert Earlier(picks, |from|) == |picks|;
    assert picked[..|picked|] == picked && (picked + [xt])[..|picked|] == picked;
  }

  lemma NothingYet(rt: Runtime, initial: State, from: seq<Extrinsic>)
    ensures Selects([], from, []) && Replays(rt, initial, Draft([], initial))
  {
  }

  function Always(): nat -> bool { (i: nat) => true }

  /** The inherents in the block are exactly those that apply where they stand, and replaying them gives the builder's
      state. */
  lemma {:induction false} InherentsReplay(rt: Runtime, initial: State, xts: seq<Extrinsic>) returns (picks: seq<nat>)
    requires WithInherents(rt, Draft([], initial), xts).Some?
    ensures var d := WithInherents(rt, Draft([], initial), xts).value;
      Replays(rt, initial, d) && Takes(rt, initial, [], xts, Always(), picks, d.extrinsics)
  {
    picks := [];
    if xts == [] {
      NothingYet(rt, initial, xts);
    } else {
      hide Takes, Replay;
      var n := |xts| - 1;
      var before := WithInherents(rt, Draft([], initial), xts[..n]).value;
      picks := InherentsReplay(rt, initial, xts[..n]);
      PushedReplays(rt, initial, before, xts[n]);
      var taken := rt.apply(before.state, xts[n]).failure.None?;
      assert [] + before.extrinsics == before.extrinsics;
      assert taken <==> Applies(rt, initial, [] + before.extrinsics, xts[n]);
      TakesNext(rt, initial, [], xts[..n], Always(), picks, before.extrinsics, xts[n], taken);
      assert xts[..n] + [xts[n]] == xts;
      if taken { picks := picks + [n]; }
    }
  }

  /** A mandatory inherent that fails where it is pushed leaves no block, and nothing else does. */
  lemma {:induction false} OnlyMandatoryAborts(rt: Runtime, d: Draft, xts: seq<Extrinsic>)
    ensures WithInherents(rt, d, xts).None? <==>
      exists i | 0 <= i < |xts| :: MandatoryFails(rt, d, xts, i)
  {
    if xts != [] {
      var n := |xts| - 1;
      OnlyMandatoryAborts(rt, d, xts[..n]);
      forall i | 0 <= i < n ensures MandatoryFails(rt, d, xts, i) == MandatoryFails(rt, d, xts[..n], i) {
        assert xts[..n][..i] == xts[..i];
      }
      if WithInherents(rt, d, xts).None? && WithInherents(rt, d, xts[..n]).Some? {
        assert MandatoryFails(rt, d, xts, n);
      }
    }
  }

  ghost predicate MandatoryFails(rt: Runtime, d: Draft, xts: seq<Extrinsic>, i: nat)
    requires i < |xts|
  {
    var before := WithInherents(rt, d, xts[..i]);
    before.Some? && rt.apply(before.value.state, xts[i]).failure == Some(BadMandatory)
  }

  // ------------------------------------------------------------ the pool

  /** The pool loop: what was skipped for lack of room, all exhausted pushes, and the transactions to report. */
  datatype Progress = Progress(draft: Draft, skipped: nat, exhausted: nat, invalid: seq<TxHash>, stopped: bool)

  function Tried(rt: Runtime, p: Progress, tx: Tx): Progress {
    var failure := rt.apply(p.draft.state, tx.data).failure;
    match failure
    case None => p.(draft := Pushed(rt, p.draft, tx.data))
    case Some(Exhausted) =>
      if p.skipped < MAX_SKIPPED_TRANSACTIONS then p.(skipped := p.skipped + 1, exhausted := p.exhausted + 1)
      else p.(exhausted := p.exhausted + 1, stopped := true)
    case Some(_) =>
      if p.skipped > 0 then p else p.(invalid := p.invalid + [tx.hash])
  }

  /** `clock(i)` is the time read before the i-th transaction. */
  function Pooled(rt: Runtime, d: Draft, pool: seq<Tx>, clock: nat -> nat, deadline: nat): Progress {
    if pool == [] then Progress(d, 0, 0, [], false)
    else
      var n := |pool| - 1;
      var p := Pooled(rt, d, pool[..n], clock, deadline);
      if p.stopped then p
      else if clock(n) > deadline then p.(stopped := true)
      else Tried(rt, p, pool[n])
  }

  function Datas(pool: seq<Tx>): (r: seq<Extrinsic>)
    ensures |r| == |pool| && forall i | 0 <= i < |pool| :: r[i] == pool[i].data
  {
    if pool == [] then [] else Datas(pool[..|pool| - 1]) + [pool[|pool| - 1].data]
  }

  /** The i-th transaction was pushed. */
  ghost predicate Attempted(rt: Runtime, d: Draft, pool: seq<Tx>, clock: nat -> nat, deadline: nat, i: nat)
    requires i < |pool|
  {
    !Pooled(rt, d, pool[..i], clock, deadline).stopped && clock(i) <= deadline
  }

  ghost function FailureAt(rt: Runtime, d: Draft, pool: seq<Tx>, clock: nat -> nat, deadline: nat,
                           i: nat): Option<Failure>
    requires i < |pool|
  {
    rt.apply(Pooled(rt, d, pool[..i], clock, deadline).draft.state, pool[i].data).failure
  }

  /** The i-th transaction failed for a reason other than lack of room, and nothing had been skipped before it. */
  ghost predicate Reported(rt: Runtime, d: Draft, pool: seq<Tx>, clock: nat -> nat, deadline: nat, i: nat)
    requires i < |pool|
  {
    && Attempted(rt, d, pool, clock, deadline, i)
    && FailureAt(rt, d, pool, clock, deadline, i).Some? && FailureAt(rt, d, pool, clock, deadline, i) != Some(Exhausted)
    && forall j | 0 <= j < i ::
      Attempted(rt, d, pool, clock, deadline, j) ==> FailureAt(rt, d, pool, clock, deadline, j) != Some(Exhausted)
  }

  /** Which transactions are pushed. */
  ghost function TriedIn(rt: Runtime, d: Draft, pool: seq<Tx>, clock: nat -> nat, deadline: nat): nat -> bool {
    (i: nat) => i < |pool| && Attempted(rt, d, pool, clock, deadline, i)
  }

  /** The pool part of the block is exactly those transactions, in pool order, that are pushed and apply where they
      stand, and replaying the whole block gives the builder's state. */
  lemma {:induction false} PoolReplays(rt: Runtime, initial: State, d: Draft, pool: seq<Tx>, clock: nat -> nat,
                                       deadline: nat)
    returns (picks: seq<nat>, picked: seq<Extrinsic>)
    requires Replays(rt, initial, d)
    ensures var p := Pooled(rt, d, pool, clock, deadline);
      && Replays(rt, initial, p.draft)
      && p.draft.extrinsics == d.extrinsics + picked
      && Takes(rt, initial, d.extrinsics, Datas(pool), TriedIn(rt, d, pool, clock, deadline), picks, picked)
  {
    picks, picked := [], [];
    if pool == [] {
      NothingYet(rt, initial, []);
    } else {
      hide Takes, Replay, Replays, Applies;
      var n := |pool| - 1;
      picks, picked := PoolReplays(rt, initial, d, pool[..n], clock, deadline);
      var p, xt := Pooled(rt, d, pool[..n], clock, deadline), pool[n].data;
      PushedReplays(rt, initial, p.draft, xt);
      TriedBefore(rt, initial, d, pool, clock, deadline, n, picks, picked);
      var taken := !p.stopped && clock(n) <= deadline && rt.apply(p.draft.state, xt).failure.None?;
      AppliesHere(rt, initial, p.draft, xt);
      TakesNext(rt, initial, d.extrinsics, Datas(pool[..n]), TriedIn(rt, d, pool, clock, deadline), picks, picked,
                xt, taken);
      if taken {
        assert d.extrinsics + picked + [xt] == d.extrinsics + (picked + [xt]);
        picks, picked := picks + [n], picked + [xt];
      }
    }
  }

  lemma AppliesHere(rt: Runtime, initial: State, d: Draft, xt: Extrinsic)
    requires Replays(rt, initial, d)
    ensures Applies(rt, initial, d.extrinsics, xt) <==> rt.apply(d.state, xt).failure.None?
  {
    hide Replay;
  }

  lemma TriedBefore(rt: Runtime, initial: State, d: Draft, pool: seq<Tx>, clock: nat -> nat, deadline: nat, n: nat,
                    picks: seq<nat>, picked: seq<Extrinsic>)
    requires n < |pool|
    requires Takes(rt, initial, d.extrinsics, Datas(pool[..n]), TriedIn(rt, d, pool[..n], clock, deadline), picks,
                   picked)
    ensures Takes(rt, initial, d.extrinsics, Datas(pool[..n]), TriedIn(rt, d, pool, clock, deadline), picks, picked)
  {
    hide Applies, Attempted;
    SameBefore(rt, d, pool, clock, deadline, n);
    var old', new' := TriedIn(rt, d, pool[..n], clock, deadline), TriedIn(rt, d, pool, clock, deadline);
    assert forall i: nat | i < n :: old'(i) == new'(i);
    forall i | 0 <= i < n ensures TakenRightly(rt, initial, d.extrinsics, Datas(pool[..n]), new', picks, picked, i) {
      assert TakenRightly(rt, initial, d.extrinsics, Datas(pool[..n]), old', picks, picked, i);
    }
  }

  lemma {:induction false} SkippedMeansExhausted(rt: Runtime, d: Draft, pool: seq<Tx>, clock: nat -> nat, deadline: nat)
    ensures Pooled(rt, d, pool, clock, deadline).skipped == 0 <==>
      forall j | 0 <= j < |pool| ::
        Attempted(rt, d, pool, clock, deadline, j) ==> FailureAt(rt, d, pool, clock, deadline, j) != Some(Exhausted)
  {
    if pool != [] {
      var n := |pool| - 1;
      SkippedMeansExhausted(rt, d, pool[..n], clock, deadline);
      SameBefore(rt, d, pool, clock, deadline, n);
      assert Attempted(rt, d, pool, clock, deadline, n) && FailureAt(rt, d, pool, clock, deadline, n) == Some(Exhausted)
        ==> Pooled(rt, d, pool, clock, deadline).skipped > 0;
    }
  }

  lemma SameBefore(rt: Runtime, d: Draft, pool: seq<Tx>, clock: nat -> nat, deadline: nat, n: nat)
    requires n <= |pool|
    ensures forall j | 0 <= j < n ::
      && Attempted(rt, d, pool[..n], clock, deadline, j) == Attempted(rt, d, pool, clock, deadline, j)
      && FailureAt(rt, d, pool[..n], clock, deadline, j) == FailureAt(rt, d, pool, clock, deadline, j)
      && Reported(rt, d, pool[..n], clock, deadline, j) == Reported(rt, d, pool, clock, deadline, j)
  {
    assert forall j | 0 <= j < n :: pool[..n][..j] == pool[..j];
  }

  /** The last transaction is added to the report exactly when it is to be reported. */
  lemma InvalidStep(rt: Runtime, d: Draft, pool: seq<Tx>, clock: nat -> nat, deadline: nat, n: nat)
    requires |pool| == n + 1
    ensures Pooled(rt, d, pool, clock, deadline).invalid == Pooled(rt, d, pool[..n], clock, deadline).invalid
      + if Reported(rt, d, pool, clock, deadline, n) then [pool[n].hash] else []
  {
    SameBefore(rt, d, pool, clock, deadline, n);
    SkippedMeansExhausted(rt, d, pool[..n], clock, deadline);
  }

  /** A transaction is reported invalid exactly when it failed otherwise before any skip. */
  lemma {:induction false} InvalidExact(rt: Runtime, d: Draft, pool: seq<Tx>, clock: nat -> nat, deadline: nat,
                                        h: TxHash)
    ensures h in Pooled(rt, d, pool, clock, deadline).invalid <==>
      exists i | 0 <= i < |pool| :: Reported(rt, d, pool, clock, deadline, i) && pool[i].hash == h
  {
    if pool != [] {
      hide Pooled, Reported, Attempted, FailureAt;
      var n := |pool| - 1;
      InvalidExact(rt, d, pool[..n], clock, deadline, h);
      SameBefore(rt, d, pool, clock, deadline, n);
      InvalidStep(rt, d, pool, clock, deadline, n);
      assert forall i | 0 <= i < n :: pool[..n][i] == pool[i];
    }
  }

  /** The transactions whose push found the block full. */
  ghost function FullAt(rt: Runtime, d: Draft, pool: seq<Tx>, clock: nat -> nat, deadline: nat): set<nat> {
    set i | 0 <= i < |pool| && FoundFull(rt, d, pool, clock, deadline, i)
  }

  ghost predicate FoundFull(rt: Runtime, d: Draft, pool: seq<Tx>, clock: nat -> nat, deadline: nat, i: nat)
    requires i < |pool|
  {
    Attempted(rt, d, pool, clock, deadline, i) && FailureAt(rt, d, pool, clock, deadline, i) == Some(Exhausted)
  }

  lemma FullStep(rt: Runtime, d: Draft, pool: seq<Tx>, clock: nat -> nat, deadline: nat, n: nat)
    requires |pool| == n + 1
    ensures FullAt(rt, d, pool, clock, deadline) == FullAt(rt, d, pool[..n], clock, deadline)
      + if FoundFull(rt, d, pool, clock, deadline, n) then {n} else {}
  {
    hide Attempted, FailureAt, Reported;
    SameBefore(rt, d, pool, clock, deadline, n);
  }

  lemma FullProgress(rt: Runtime, d: Draft, pool: seq<Tx>, clock: nat -> nat, deadline: nat, n: nat)
    requires |pool| == n + 1
    ensures Pooled(rt, d, pool, clock, deadline).exhausted == Pooled(rt, d, pool[..n], clock, deadline).exhausted
      + if FoundFull(rt, d, pool, clock, deadline, n) then 1 else 0
  {
  }

  lemma {:induction false} FullCounted(rt: Runtime, d: Draft, pool: seq<Tx>, clock: nat -> nat, deadline: nat)
    ensures |FullAt(rt, d, pool, clock, deadline)| == Pooled(rt, d, pool, clock, deadline).exhausted
  {
    if pool == [] {
      assert FullAt(rt, d, pool, clock, deadline) == {};
    } else {
      hide Pooled, FoundFull;
      var n := |pool| - 1;
      FullCounted(rt, d, pool[..n], clock, deadline);
      FullStep(rt, d, pool, clock, deadline, n);
      FullProgress(rt, d, pool, clock, deadline, n);
      assert n !in FullAt(rt, d, pool[..n], clock, deadline);
    }
  }

  /** A transaction is pushed exactly when the deadline had not passed for it or an earlier one, and at most eight
      pushes before it had found the block full. */
  lemma {:induction false} AttemptedExact(rt: Runtime, d: Draft, pool: seq<Tx>, clock: nat -> nat, deadline: nat,
                                          i: nat)
    requires i < |pool|
    ensures Attempted(rt, d, pool, clock, deadline, i) <==>
      (forall j: nat | j <= i :: clock(j) <= deadline) && |FullAt(rt, d, pool[..i], clock, deadline)| <= 8
  {
    FullCounted(rt, d, pool[..i], clock, deadline);
    SkipsAreBounded(rt, d, pool[..i], clock, deadline);
    StoppedExact(rt, d, pool[..i], clock, deadline);
  }

  /** The loop has ended exactly when the deadline had passed or nine pushes had found the block full. */
  lemma {:induction false} StoppedExact(rt: Runtime, d: Draft, pool: seq<Tx>, clock: nat -> nat, deadline: nat)
    ensures var p := Pooled(rt, d, pool, clock, deadline);
      !p.stopped <==> (forall j: nat | j < |pool| :: clock(j) <= deadline) && p.exhausted <= 8
  {
    if pool != [] {
      var n := |pool| - 1;
      StoppedExact(rt, d, pool[..n], clock, deadline);
      SkipsAreBounded(rt, d, pool[..n], clock, deadline);
    }
  }

  lemma {:induction false} SkipsAreBounded(rt: Runtime, d: Draft, pool: seq<Tx>, clock: nat -> nat, deadline: nat)
    ensures var p := Pooled(rt, d, pool, clock, deadline);
      && p.skipped <= MAX_SKIPPED_TRANSACTIONS && p.exhausted <= p.skipped + 1
      && (!p.stopped ==> p.exhausted == p.skipped)
  {
    if pool != [] { SkipsAreBounded(rt, d, pool[..|pool| - 1], clock, deadline); }
  }

  /** At most nine pushes find the block full, eight of them skipped. */
  lemma AtMostNineFull(rt: Runtime, d: Draft, pool: seq<Tx>, clock: nat -> nat, deadline: nat)
    ensures |FullAt(rt, d, pool, clock, deadline)| <= MAX_SKIPPED_TRANSACTIONS + 1
  {
    FullCounted(rt, d, pool, clock, deadline);
    SkipsAreBounded(rt, d, pool, clock, deadline);
  }

  // ------------------------------------------------------------ the builder and the proposer

  class BlockBuilder {
    const rt: Runtime
    var extrinsics: seq<Extrinsic>
    var state: State

    function Contents(): Draft
      reads this
    {
      Draft(extrinsics, state)
    }

    /** `initial` is the state after initializing the block. */
    constructor (rt: Runtime, initial: State)
      ensures this.rt == rt && Contents() == Draft([], initial)
    {
      this.rt, extrinsics, state := rt, [], initial;
    }

    /** Executes the extrinsic in a transaction. A failed push leaves no trace. */
    method Push(xt: Extrinsic) returns (failure: Option<Failure>)
      modifies this
      ensures failure == rt.apply(old(state), xt).failure
      ensures Contents() == Pushed(rt, old(Contents()), xt)
    {
      var saved := state;
      var a := rt.apply(state, xt);
      state := a.overlay;
      failure := a.failure;
      if failure.None? { extrinsics := extrinsics + [xt]; } else { state := saved; }
    }

    /** Always rolled back, whatever the runtime did to the overlay. */
    method CreateInherents() returns (r: Option<seq<Extrinsic>>)
      modifies this
      ensures Contents() == old(Contents()) && r == rt.inherents(state).list
    {
      var saved := state;
      var made := rt.inherents(state);
      state := made.overlay;
      r := made.list;
      state := saved;
    }
  }

  method PushInherents(b: BlockBuilder, xts: seq<Extrinsic>) returns (ok: bool)
    modifies b
    ensures var spec := WithInherents(b.rt, old(b.Contents()), xts);
      ok == spec.Some? && (ok ==> b.Contents() == spec.value)
  {
    for i := 0 to |xts|
      invariant WithInherents(b.rt, old(b.Contents()), xts[..i]) == Some(b.Contents())
    {
      assert xts[..i + 1][..i] == xts[..i];
      var failure := b.Push(xts[i]);
      if failure == Some(BadMandatory) {
        AbortsEarly(b.rt, old(b.Contents()), xts, i + 1);
        return false;
      }
    }
    assert xts[..|xts|] == xts;
    ok := true;
  }

  lemma {:induction false} AbortsEarly(rt: Runtime, d: Draft, xts: seq<Extrinsic>, i: nat)
    requires i <= |xts| && WithInherents(rt, d, xts[..i]).None?
    ensures WithInherents(rt, d, xts).None?
    decreases |xts|
  {
    if i < |xts| {
      assert xts[..|xts| - 1][..i] == xts[..i];
      AbortsEarly(rt, d, xts[..|xts| - 1], i);
    } else {
      assert xts[..i] == xts;
    }
  }

  lemma {:induction false} StoppedStays(rt: Runtime, d: Draft, pool: seq<Tx>, clock: nat -> nat, deadline: nat, i: nat)
    requires i <= |pool| && Pooled(rt, d, pool[..i], clock, deadline).stopped
    ensures Pooled(rt, d, pool, clock, deadline) == Pooled(rt, d, pool[..i], clock, deadline)
    decreases |pool|
  {
    if i < |pool| {
      assert pool[..|pool| - 1][..i] == pool[..i];
      StoppedStays(rt, d, pool[..|pool| - 1], clock, deadline, i);
    } else {
      assert pool[..i] == pool;
    }
  }

  method PushPool(b: BlockBuilder, pool: seq<Tx>, clock: nat -> nat, deadline: nat)
    returns (unqueueInvalid: seq<TxHash>)
    modifies b
    ensures var p := Pooled(b.rt, old(b.Contents()), pool, clock, deadline);
      b.Contents() == p.draft && unqueueInvalid == p.invalid
  {
    var skipped := 0;
    unqueueInvalid := [];
    ghost var d := b.Contents();
    for i := 0 to |pool|
      invariant var p := Pooled(b.rt, d, pool[..i], clock, deadline);
        p.draft == b.Contents() && p.skipped == skipped && p.invalid == unqueueInvalid && !p.stopped
    {
      assert pool[..i + 1][..i] == pool[..i];
      if clock(i) > deadline {
        StoppedStays(b.rt, d, pool, clock, deadline, i + 1);
        return;
      }
      var failure := b.Push(pool[i].data);
      match failure {
        case None =>
        case Some(Exhausted) =>
          if skipped < MAX_SKIPPED_TRANSACTIONS {
            skipped := skipped + 1;
          } else {
            StoppedStays(b.rt, d, pool, clock, deadline, i + 1);
            return;
          }
        case Some(_) =>
          if skipped == 0 { unqueueInvalid := unqueueInvalid + [pool[i].hash]; }
      }
    }
    assert pool[..|pool|] == pool;
  }

  /** The block's extrinsics are exactly the inherents that apply where they stand, and behind them exactly the pushed
      transactions of the pool that do. */
  ghost predicate IsProposal(rt: Runtime, initial: State, list: seq<Extrinsic>, d: Draft, pool: seq<Tx>,
                             clock: nat -> nat, deadline: nat, xts: seq<Extrinsic>)
  {
    && d.extrinsics <= xts
    && (exists picks :: Takes(rt, initial, [], list, Always(), picks, d.extrinsics))
    && (exists picks :: Takes(rt, initial, d.extrinsics, Datas(pool), TriedIn(rt, d, pool, clock, deadline), picks,
                              xts[|d.extrinsics|..]))
  }

  lemma ProposalHolds(rt: Runtime, initial: State, list: seq<Extrinsic>, d: Draft, pool: seq<Tx>, clock: nat -> nat,
                      deadline: nat, xts: seq<Extrinsic>, first: seq<nat>, second: seq<nat>)
    requires d.extrinsics <= xts && Takes(rt, initial, [], list, Always(), first, d.extrinsics)
    requires Takes(rt, initial, d.extrinsics, Datas(pool), TriedIn(rt, d, pool, clock, deadline), second,
                   xts[|d.extrinsics|..])
    ensures IsProposal(rt, initial, list, d, pool, clock, deadline, xts)
  {
    hide Takes;
  }

  /** `propose_with`. The block is exactly the inherents, and then the pushed transactions, that apply where they stand,
      and importing it succeeds with the proposer's own state. Without the inherents, with a failed mandatory inherent,
      or when finalizing the block fails there is no block. */
  method Propose(rt: Runtime, initial: State, pool: seq<Tx>, clock: nat -> nat, deadline: nat)
    returns (block: Option<Draft>, invalid: seq<TxHash>)
    ensures var list := rt.inherents(initial).list;
      var inherents := if list.Some? then WithInherents(rt, Draft([], initial), list.value) else None;
      && (inherents.None? ==> block.None? && invalid == [])
      && (inherents.Some? ==>
            var p := Pooled(rt, inherents.value, pool, clock, deadline);
            && invalid == p.invalid
            && block == (if rt.finalizes(p.draft.state) then Some(p.draft) else None))
      && (block.Some? ==>
            && Replay(rt, initial, block.value.extrinsics) == Some(block.value.state)
            && inherents.Some? && inherents.value.extrinsics <= block.value.extrinsics
            && IsProposal(rt, initial, list.value, inherents.value, pool, clock, deadline, block.value.extrinsics))
  {
    block, invalid := None, [];
    var b := new BlockBuilder(rt, initial);
    var xts := b.CreateInherents();
    if xts.None? { return; }
    var ok := PushInherents(b, xts.value);
    if !ok { return; }
    ghost var d := b.Contents();
    ghost var first := InherentsReplay(rt, initial, xts.value);
    invalid := PushPool(b, pool, clock, deadline);
    ghost var picks, picked := PoolReplays(rt, initial, d, pool, clock, deadline);
    assert b.extrinsics[|d.extrinsics|..] == picked;
    ProposalHolds(rt, initial, xts.value, d, pool, clock, deadline, b.extrinsics, first, picks);
    if rt.finalizes(b.state) { block := Some(b.Contents()); }
  }
}
