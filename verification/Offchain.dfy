/** Off-chain local storage: `compare_and_set` called by many threads on clones of one storage.
    Each call takes the mutex of its key from a shared table, works under it, and removes the mutex
    from the table when nobody else holds it. One step below is one section the code runs atomically.
  */
module Offchain {
  import opened ChainTree
  import opened Keys

  type Thread = nat

  /** Where a call stands: it has cloned the key's mutex, locked it, compared, written, unlocked. */
  datatype Stage = Cloned | Locked | Compared | Written | Unlocked

  /** A call in flight. `id` tells calls apart; a mutex is named after the call that created it.
      `begun` is the number of calls that had taken effect when this one began. */
  datatype Call = Call(id: nat, key: Bytes, expected: Option<Bytes>, value: Bytes, mutex: nat, stage: Stage,
                       isSet: bool, begun: nat)

  /** A call that has taken effect, with its answer. */
  datatype Effect = Effect(id: nat, key: Bytes, expected: Option<Bytes>, value: Bytes, isSet: bool)

  /** The database column, the table of mutexes, who has locked which mutex, and the calls in flight;
      `effects` records the order in which calls took effect. */
  datatype Shared = Shared(db: map<Bytes, Bytes>, locks: map<Bytes, nat>, owners: map<nat, Thread>,
                           calls: map<Thread, Call>, next: nat, effects: seq<Effect>)

  datatype Step =
    | Begin(thread: Thread, prefix: Bytes, item: Bytes, expected: Option<Bytes>, value: Bytes)
    | Lock(thread: Thread)
    | Compare(thread: Thread)
    | Write(thread: Thread)
    | Unlock(thread: Thread)
    | Finish(thread: Thread)

  function ConcatenatePrefixAndKey(prefix: Bytes, key: Bytes): Bytes { prefix + key }

  function Get(db: map<Bytes, Bytes>, key: Bytes): Option<Bytes> { if key in db then Some(db[key]) else None }

  function Holders(s: Shared, mutex: nat): set<Thread> { set t | t in s.calls && s.calls[t].mutex == mutex }

  function Entries(s: Shared, mutex: nat): set<Bytes> { set k | k in s.locks && s.locks[k] == mutex }

  /** The reference count of a mutex: the calls that hold a clone and the table's own entries. */
  function StrongCount(s: Shared, mutex: nat): nat { |Holders(s, mutex)| + |Entries(s, mutex)| }

  function EffectOf(c: Call): Effect { Effect(c.id, c.key, c.expected, c.value, c.isSet) }

  predicate Enabled(s: Shared, step: Step) {
    match step
    case Begin(t, _, _, _, _) => t !in s.calls
    case Lock(t) => t in s.calls && s.calls[t].stage == Cloned && s.calls[t].mutex !in s.owners
    case Compare(t) => t in s.calls && s.calls[t].stage == Locked
    case Write(t) => t in s.calls && s.calls[t].stage == Compared && s.calls[t].isSet
    case Unlock(t) => t in s.calls
      && (s.calls[t].stage == Written || (s.calls[t].stage == Compared && !s.calls[t].isSet))
    case Finish(t) => t in s.calls && s.calls[t].stage == Unlocked
  }

  function Next(s: Shared, step: Step): Shared
    requires Enabled(s, step)
  {
    match step
    case Begin(t, prefix, item, expected, value) =>
      var key := ConcatenatePrefixAndKey(prefix, item);
      var locks := if key in s.locks then s.locks else s.locks[key := s.next];
      var c := Call(s.next, key, expected, value, locks[key], Cloned, false, |s.effects|);
      s.(locks := locks, calls := s.calls[t := c], next := s.next + 1)
    case Lock(t) =>
      var c := s.calls[t];
      s.(owners := s.owners[c.mutex := t], calls := s.calls[t := c.(stage := Locked)])
    case Compare(t) =>
      var c := s.calls[t].(stage := Compared, isSet := Get(s.db, s.calls[t].key) == s.calls[t].expected);
      s.(calls := s.calls[t := c], effects := if c.isSet then s.effects else s.effects + [EffectOf(c)])
    case Write(t) =>
      var c := s.calls[t].(stage := Written);
      s.(db := s.db[c.key := c.value], calls := s.calls[t := c], effects := s.effects + [EffectOf(c)])
    case Unlock(t) =>
      s.(owners := s.owners - {s.calls[t].mutex}, calls := s.calls[t := s.calls[t].(stage := Unlocked)])
    case Finish(t) =>
      var key := s.calls[t].key;
      var dropped := s.(calls := s.calls - {t});
      if key in s.locks && StrongCount(dropped, s.locks[key]) == 1 then dropped.(locks := s.locks - {key}) else dropped
  }

  // ------------------------------------------------------------ what every state satisfies

  ghost predicate InLocked(c: Call) { c.stage == Locked || c.stage == Compared || c.stage == Written }

  /** The call has taken effect: a refused one when it compared, an accepted one when it wrote. */
  ghost predicate Effective(c: Call) { c.stage == Written || c.stage == Unlocked || (c.stage == Compared && !c.isSet) }

  /** Every call in flight works with the mutex the table holds for its key, and only keys of such calls are in the
      table. */
  ghost predicate TableExact(s: Shared) {
    && (forall t | t in s.calls :: s.calls[t].key in s.locks && s.locks[s.calls[t].key] == s.calls[t].mutex)
    && (forall k | k in s.locks :: exists t | t in s.calls :: s.calls[t].key == k)
    && (forall k, l | k in s.locks && l in s.locks && s.locks[k] == s.locks[l] :: k == l)
    && (forall k | k in s.locks :: s.locks[k] < s.next)
  }

  /** The owner of a mutex is the one call between locking and unlocking it. */
  ghost predicate OwnersExact(s: Shared) {
    && (forall t | t in s.calls && InLocked(s.calls[t]) ::
          s.calls[t].mutex in s.owners && s.owners[s.calls[t].mutex] == t)
    && (forall m | m in s.owners ::
          s.owners[m] in s.calls && s.calls[s.owners[m]].mutex == m && InLocked(s.calls[s.owners[m]]))
  }

  /** Between a successful comparison and the write the stored value stays the expected one. */
  ghost predicate StillExpected(s: Shared) {
    forall t | t in s.calls && s.calls[t].stage == Compared && s.calls[t].isSet ::
      Get(s.db, s.calls[t].key) == s.calls[t].expected
  }

  /** Running the calls one after the other, in the order given. */
  function Sequential(db: map<Bytes, Bytes>, effects: seq<Effect>): map<Bytes, Bytes> {
    if effects == [] then db
    else
      var n := |effects| - 1;
      var before := Sequential(db, effects[..n]);
      if Get(before, effects[n].key) == effects[n].expected then before[effects[n].key := effects[n].value] else before
  }

  /** Every recorded answer is the one a sequential execution gives. */
  ghost predicate AnswersSequential(db: map<Bytes, Bytes>, effects: seq<Effect>) {
    forall i | 0 <= i < |effects| ::
      effects[i].isSet <==> Get(Sequential(db, effects[..i]), effects[i].key) == effects[i].expected
  }

  ghost predicate Recorded(effects: seq<Effect>, c: Call) {
    exists i | c.begun <= i < |effects| :: effects[i] == EffectOf(c)
  }

  ghost predicate Unrecorded(effects: seq<Effect>, id: nat) { forall i | 0 <= i < |effects| :: effects[i].id != id }

  /** Calls in flight have their own identities, and exactly those that took effect are recorded, once. */
  ghost predicate RecordExact(s: Shared) {
    && (forall t | t in s.calls :: s.calls[t].id < s.next && s.calls[t].begun <= |s.effects|)
    && (forall t, u | t in s.calls && u in s.calls && t != u :: s.calls[t].id != s.calls[u].id)
    && (forall i | 0 <= i < |s.effects| :: s.effects[i].id < s.next)
    && (forall i, j | 0 <= i < j < |s.effects| :: s.effects[i].id != s.effects[j].id)
    && (forall t | t in s.calls && Effective(s.calls[t]) :: Recorded(s.effects, s.calls[t]))
    && (forall t | t in s.calls && !Effective(s.calls[t]) :: Unrecorded(s.effects, s.calls[t].id))
  }

  ghost predicate Linearized(s: Shared, db: map<Bytes, Bytes>) {
    Sequential(db, s.effects) == s.db && AnswersSequential(db, s.effects)
  }

  ghost predicate Inv(s: Shared, db: map<Bytes, Bytes>) {
    TableExact(s) && OwnersExact(s) && StillExpected(s) && RecordExact(s) && Linearized(s, db)
  }

  /** Two calls on one key are never both between locking and unlocking. */
  lemma MutualExclusion(s: Shared, t: Thread, u: Thread)
    requires TableExact(s) && OwnersExact(s)
    requires t in s.calls && u in s.calls && s.calls[t].key == s.calls[u].key
    requires InLocked(s.calls[t]) && InLocked(s.calls[u])
    ensures t == u
  {
  }

  /** No other call works on this call's key. */
  ghost predicate Alone(s: Shared, t: Thread)
    requires t in s.calls
  {
    forall u | u in s.calls && u != t :: s.calls[u].key != s.calls[t].key
  }

  /** After dropping its own clone, a call finds the count to be one exactly when no other call works on its key. */
  lemma CountIsOne(s: Shared, t: Thread)
    requires TableExact(s) && t in s.calls
    ensures var c := s.calls[t];
      StrongCount(s.(calls := s.calls - {t}), c.mutex) == 1 <==> Alone(s, t)
  {
    var c := s.calls[t];
    var dropped := s.(calls := s.calls - {t});
    assert Entries(dropped, c.mutex) == {c.key};
    if Alone(s, t) {
      assert Holders(dropped, c.mutex) == {};
    } else {
      var u :| u in s.calls && u != t && s.calls[u].key == c.key;
      assert u in Holders(dropped, c.mutex);
    }
  }

  /** A new call on a key takes the key's mutex, or creates it. */
  lemma TableWithCall(s: Shared, n: Shared, t: Thread, c: Call)
    requires TableExact(s) && t !in s.calls && n.calls == s.calls[t := c] && n.next == s.next + 1
    requires n.locks == if c.key in s.locks then s.locks else s.locks[c.key := s.next]
    requires c.mutex == n.locks[c.key]
    ensures TableExact(n)
  {
    forall k | k in n.locks ensures exists u | u in n.calls :: n.calls[u].key == k {
      if k in s.locks {
        var u :| u in s.calls && s.calls[u].key == k;
        assert n.calls[u].key == k;
      } else {
        assert n.calls[t].key == k;
      }
    }
  }

  lemma BeginKeepsTable(s: Shared, step: Step)
    requires TableExact(s) && step.Begin? && Enabled(s, step)
    ensures TableExact(Next(s, step))
  {
    hide TableExact;
    var n := Next(s, step);
    TableWithCall(s, n, step.thread, n.calls[step.thread]);
  }

  lemma FinishKeepsTable(s: Shared, step: Step)
    requires TableExact(s) && step.Finish? && Enabled(s, step)
    ensures TableExact(Next(s, step))
  {
    hide StrongCount;
    var n, t := Next(s, step), step.thread;
    CountIsOne(s, t);
    forall k | k in n.locks ensures exists u | u in n.calls :: n.calls[u].key == k {
      var u :| u in s.calls && s.calls[u].key == k && u != t;
      assert n.calls[u].key == k;
    }
  }

  lemma InsideFrame(s: Shared, step: Step)
    requires !step.Begin? && !step.Finish? && Enabled(s, step)
    ensures Next(s, step).locks == s.locks && Next(s, step).next == s.next
    ensures Next(s, step).calls.Keys == s.calls.Keys
    ensures forall u | u in s.calls ::
      Next(s, step).calls[u].key == s.calls[u].key && Next(s, step).calls[u].mutex == s.calls[u].mutex
  {
    assert Next(s, step).calls.Keys == s.calls.Keys;
  }

  lemma InsideKeepsTable(s: Shared, step: Step)
    requires TableExact(s) && !step.Begin? && !step.Finish? && Enabled(s, step)
    ensures TableExact(Next(s, step))
  {
    hide Next, Enabled;
    var n := Next(s, step);
    InsideFrame(s, step);
    forall k | k in n.locks ensures exists u | u in n.calls :: n.calls[u].key == k {
      var u :| u in s.calls && s.calls[u].key == k;
      assert n.calls[u].key == k;
    }
  }

  lemma TableKept(s: Shared, step: Step)
    requires TableExact(s) && Enabled(s, step)
    ensures TableExact(Next(s, step))
  {
    if step.Begin? { BeginKeepsTable(s, step); }
    else if step.Finish? { FinishKeepsTable(s, step); }
    else { InsideKeepsTable(s, step); }
  }

  lemma OwnersKept(s: Shared, step: Step)
    requires OwnersExact(s) && TableExact(s) && Enabled(s, step)
    ensures OwnersExact(Next(s, step))
  {
    hide TableExact;
  }

  lemma StillExpectedKept(s: Shared, step: Step)
    requires TableExact(s) && OwnersExact(s) && StillExpected(s) && Enabled(s, step)
    ensures StillExpected(Next(s, step))
  {
    hide TableExact, OwnersExact, StrongCount, ConcatenatePrefixAndKey;
    var n := Next(s, step);
    var t := step.thread;
    forall u | u in n.calls && n.calls[u].stage == Compared && n.calls[u].isSet
      ensures Get(n.db, n.calls[u].key) == n.calls[u].expected
    {
      if step.Write? && n.calls[u].key == s.calls[t].key { MutualExclusion(s, t, u); }
    }
  }

  lemma RecordedGrows(effects: seq<Effect>, e: Effect, c: Call)
    requires Recorded(effects, c)
    ensures Recorded(effects + [e], c)
  {
    var i :| c.begun <= i < |effects| && effects[i] == EffectOf(c);
    assert (effects + [e])[i] == EffectOf(c);
  }

  /** The call of `t` moves on to `c`, taking effect or not. */
  lemma CallMovesOn(s: Shared, n: Shared, t: Thread, c: Call)
    requires RecordExact(s) && t in s.calls && n.calls == s.calls[t := c] && n.next == s.next
    requires c.id == s.calls[t].id && c.begun == s.calls[t].begun
    requires (n.effects == s.effects && Effective(c) == Effective(s.calls[t])
      && (Effective(c) ==> Recorded(s.effects, c)))
      || (n.effects == s.effects + [EffectOf(c)] && !Effective(s.calls[t]) && Effective(c))
    ensures RecordExact(n)
  {
    hide Recorded, Effective;
    if n.effects != s.effects {
      forall u | u in s.calls && Recorded(s.effects, s.calls[u]) ensures Recorded(n.effects, s.calls[u]) {
        RecordedGrows(s.effects, EffectOf(c), s.calls[u]);
      }
      LastRecorded(s.effects, c);
    }
  }

  lemma CallBegins(s: Shared, n: Shared, t: Thread, c: Call)
    requires RecordExact(s) && t !in s.calls && n.calls == s.calls[t := c] && n.next == s.next + 1
      && n.effects == s.effects
    requires c.id == s.next && c.begun == |s.effects| && c.stage == Cloned
    ensures RecordExact(n)
  {
    hide Recorded;
  }

  lemma CallEnds(s: Shared, n: Shared, t: Thread)
    requires RecordExact(s) && n.calls == s.calls - {t} && n.next == s.next && n.effects == s.effects
    ensures RecordExact(n)
  {
    hide Recorded, Effective;
  }

  lemma RecordKept(s: Shared, step: Step)
    requires RecordExact(s) && Enabled(s, step)
    ensures RecordExact(Next(s, step))
  {
    hide StrongCount, Get, Recorded, ConcatenatePrefixAndKey, RecordExact;
    var n, t := Next(s, step), step.thread;
    if step.Begin? {
      CallBegins(s, n, t, n.calls[t]);
    } else if step.Finish? {
      CallEnds(s, n, t);
    } else {
      EffectiveRecorded(s, t);
      if step.Unlock? { SameRecord(s.effects, s.calls[t], n.calls[t]); }
      CallMovesOn(s, n, t, n.calls[t]);
    }
  }

  lemma EffectiveRecorded(s: Shared, t: Thread)
    requires RecordExact(s) && t in s.calls
    ensures Effective(s.calls[t]) ==> Recorded(s.effects, s.calls[t])
  {
  }

  lemma LastRecorded(effects: seq<Effect>, c: Call)
    requires c.begun <= |effects|
    ensures Recorded(effects + [EffectOf(c)], c)
  {
    assert (effects + [EffectOf(c)])[|effects|] == EffectOf(c);
  }

  lemma SameRecord(effects: seq<Effect>, c: Call, d: Call)
    requires Recorded(effects, c) && EffectOf(c) == EffectOf(d) && c.begun == d.begun
    ensures Recorded(effects, d)
  {
  }

  lemma EffectAppended(db: map<Bytes, Bytes>, effects: seq<Effect>, e: Effect)
    requires AnswersSequential(db, effects)
    requires e.isSet <==> Get(Sequential(db, effects), e.key) == e.expected
    ensures AnswersSequential(db, effects + [e])
    ensures var before := Sequential(db, effects);
      Sequential(db, effects + [e]) == if e.isSet then before[e.key := e.value] else before
  {
    var all := effects + [e];
    assert all[..|effects|] == effects;
    forall i | 0 <= i < |all|
      ensures all[i].isSet <==> Get(Sequential(db, all[..i]), all[i].key) == all[i].expected
    {
      if i < |effects| { assert all[..i] == effects[..i]; }
    }
  }

  lemma LinearizedKept(s: Shared, step: Step, db: map<Bytes, Bytes>)
    requires StillExpected(s) && Linearized(s, db) && Enabled(s, step)
    ensures Linearized(Next(s, step), db)
  {
    hide StrongCount, Get, AnswersSequential, Sequential;
    var n, t := Next(s, step), step.thread;
    if n.effects != s.effects { EffectAppended(db, s.effects, EffectOf(n.calls[t])); }
  }

  lemma NextKeepsInv(s: Shared, step: Step, db: map<Bytes, Bytes>)
    requires Inv(s, db) && Enabled(s, step)
    ensures Inv(Next(s, step), db)
  {
    hide TableExact, OwnersExact, StillExpected, RecordExact, Linearized, Next;
    TableKept(s, step);
    OwnersKept(s, step);
    StillExpectedKept(s, step);
    RecordKept(s, step);
    LinearizedKept(s, step, db);
  }

  // ------------------------------------------------------------ runs

  /** A storage nobody has used yet, over a database with any contents. */
  function Initial(db: map<Bytes, Bytes>): Shared { Shared(db, map[], map[], map[], 0, []) }

  ghost predicate IsRun(ss: seq<Shared>, steps: seq<Step>, db: map<Bytes, Bytes>) {
    && |ss| == |steps| + 1
    && ss[0] == Initial(db)
    && forall i | 0 <= i < |steps| :: Enabled(ss[i], steps[i]) && ss[i + 1] == Next(ss[i], steps[i])
  }

  lemma {:induction false} RunInv(ss: seq<Shared>, steps: seq<Step>, db: map<Bytes, Bytes>, i: nat)
    requires IsRun(ss, steps, db) && i < |ss|
    ensures Inv(ss[i], db)
  {
    if i > 0 {
      RunInv(ss, steps, db, i - 1);
      NextKeepsInv(ss[i - 1], steps[i - 1], db);
    }
  }

  lemma {:induction false} EffectsGrow(ss: seq<Shared>, steps: seq<Step>, db: map<Bytes, Bytes>, i: nat, j: nat)
    requires IsRun(ss, steps, db) && i <= j < |ss|
    ensures ss[i].effects <= ss[j].effects
  {
    if i < j { EffectsGrow(ss, steps, db, i, j - 1); }
  }

  /** In every interleaving: calls on one key share one mutex, of which the table is the only other holder;
      no two of them are inside it; and with no call in flight the table is empty. */
  lemma LocksAreShared(ss: seq<Shared>, steps: seq<Step>, db: map<Bytes, Bytes>, i: nat)
    requires IsRun(ss, steps, db) && i < |ss|
    ensures forall t, u | t in ss[i].calls && u in ss[i].calls ::
      ss[i].calls[t].key == ss[i].calls[u].key <==> ss[i].calls[t].mutex == ss[i].calls[u].mutex
    ensures forall t, u | t in ss[i].calls && u in ss[i].calls && ss[i].calls[t].key == ss[i].calls[u].key ::
      InLocked(ss[i].calls[t]) && InLocked(ss[i].calls[u]) ==> t == u
    ensures ss[i].calls == map[] ==> ss[i].locks == map[] && ss[i].owners == map[]
  {
    RunInv(ss, steps, db, i);
  }

  /** While a call is in flight, some call can take its next step: the mutexes never deadlock. */
  lemma NoDeadlock(ss: seq<Shared>, steps: seq<Step>, db: map<Bytes, Bytes>, i: nat) returns (step: Step)
    requires IsRun(ss, steps, db) && i < |ss| && ss[i].calls != map[]
    ensures !step.Begin? && Enabled(ss[i], step)
  {
    RunInv(ss, steps, db, i);
    var s := ss[i];
    var t :| t in s.calls;
    if s.calls[t].stage == Cloned && s.calls[t].mutex in s.owners { t := s.owners[s.calls[t].mutex]; }
    match s.calls[t].stage
    case Cloned => step := Lock(t);
    case Locked => step := Compare(t);
    case Compared => step := if s.calls[t].isSet then Write(t) else Unlock(t);
    case Written => step := Unlock(t);
    case Unlocked => step := Finish(t);
  }

  /** A write happens only while the stored value is the expected one, and a call that ends has the answer of its
      write. */
  lemma WritesAreGuarded(ss: seq<Shared>, steps: seq<Step>, db: map<Bytes, Bytes>, i: nat)
    requires IsRun(ss, steps, db) && i < |steps| && steps[i].Write?
    ensures var c := ss[i].calls[steps[i].thread];
      && Get(ss[i].db, c.key) == c.expected
      && ss[i + 1].db == ss[i].db[c.key := c.value]
  {
    RunInv(ss, steps, db, i);
  }

  /** Every interleaving has the outcome of running the calls one at a time: the database is what the calls
      leave behind in the order in which they took effect, and each call that ended gave the answer
      it gives there, at a place between its beginning and its end. */
  lemma Linearizable(ss: seq<Shared>, steps: seq<Step>, db: map<Bytes, Bytes>)
    requires IsRun(ss, steps, db)
    ensures var end := ss[|steps|];
      && end.db == Sequential(db, end.effects)
      && AnswersSequential(db, end.effects)
      && (forall i, j | 0 <= i < j < |end.effects| :: end.effects[i].id != end.effects[j].id)
      && (forall i | 0 <= i < |steps| && steps[i].Finish? :: TookEffect(ss[i], steps[i].thread, end.effects))
  {
    hide Enabled, Next;
    RunInv(ss, steps, db, |steps|);
    forall i | 0 <= i < |steps| && steps[i].Finish? ensures TookEffect(ss[i], steps[i].thread, ss[|steps|].effects) {
      RunInv(ss, steps, db, i);
      EffectsGrow(ss, steps, db, i, |steps|);
      FinishedTookEffect(ss[i], steps[i], ss[|steps|].effects);
    }
  }

  lemma FinishedTookEffect(s: Shared, step: Step, effects: seq<Effect>)
    requires RecordExact(s) && step.Finish? && Enabled(s, step) && s.effects <= effects
    ensures TookEffect(s, step.thread, effects)
  {
    assert Recorded(s.effects, s.calls[step.thread]);
  }

  /** The call of thread `t` is in the record at a place after it began and before now. */
  ghost predicate TookEffect(s: Shared, t: Thread, effects: seq<Effect>) {
    t in s.calls && exists i | s.calls[t].begun <= i < |s.effects| && i < |effects| ::
      effects[i] == EffectOf(s.calls[t])
  }

  /** Keys begin with their prefix, and under one prefix different items have different keys. */
  lemma KeysUnderPrefix(prefix: Bytes, item: Bytes, other: Bytes)
    ensures prefix <= ConcatenatePrefixAndKey(prefix, item)
    ensures ConcatenatePrefixAndKey(prefix, item)[|prefix|..] == item
    ensures ConcatenatePrefixAndKey(prefix, item) == ConcatenatePrefixAndKey(prefix, other) <==> item == other
  {
    assert ConcatenatePrefixAndKey(prefix, item)[|prefix|..] == item;
    assert ConcatenatePrefixAndKey(prefix, other)[|prefix|..] == other;
  }

  /** `begun` is what had taken effect when the call began, so the record respects the order of calls that do not
      overlap. */
  lemma BegunIsStart(ss: seq<Shared>, steps: seq<Step>, db: map<Bytes, Bytes>, b: nat, i: nat)
    requires IsRun(ss, steps, db) && b < i < |ss| && steps[b].Begin?
    requires forall j | b < j < i :: !(steps[j].Finish? && steps[j].thread == steps[b].thread)
    ensures var t := steps[b].thread;
      && t in ss[i].calls
      && ss[i].calls[t].id == ss[b].next && ss[i].calls[t].begun == |ss[b].effects|
      && ss[i].calls[t].key == ConcatenatePrefixAndKey(steps[b].prefix, steps[b].item)
      && ss[i].calls[t].expected == steps[b].expected && ss[i].calls[t].value == steps[b].value
    decreases i
  {
    hide Enabled, Next;
    var t := steps[b].thread;
    if i > b + 1 {
      BegunIsStart(ss, steps, db, b, i - 1);
      CallStays(ss[i - 1], steps[i - 1], t);
    } else {
      CallIsNew(ss[b], steps[b]);
    }
  }

  lemma CallStays(s: Shared, step: Step, t: Thread)
    requires Enabled(s, step) && t in s.calls && !(step.Finish? && step.thread == t)
    ensures t in Next(s, step).calls
    ensures var c, d := s.calls[t], Next(s, step).calls[t];
      d.id == c.id && d.begun == c.begun && d.key == c.key && d.expected == c.expected && d.value == c.value
  {
    hide StrongCount, ConcatenatePrefixAndKey, Get;
  }

  lemma CallIsNew(s: Shared, step: Step)
    requires Enabled(s, step) && step.Begin?
    ensures step.thread in Next(s, step).calls
    ensures var c := Next(s, step).calls[step.thread];
      && c.id == s.next && c.begun == |s.effects| && c.expected == step.expected && c.value == step.value
      && c.key == ConcatenatePrefixAndKey(step.prefix, step.item)
  {
  }
}
