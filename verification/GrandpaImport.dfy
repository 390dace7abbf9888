/** GRANDPA block import. The shared authority set is changed before the block is handed to the client, and
    guards put the old set back on every way out except a successful import. The operations on the
    set are arbitrary: adding a change may modify the set and then fail.
  */
module GrandpaImport {
  import opened ChainTree

  datatype AuthoritySet = AuthoritySet(setId: nat, authorities: seq<nat>, pendingStandard: seq<nat>,
                                       pendingForced: seq<nat>)

  datatype DelayKind = Finalized | Best(medianLastFinalized: nat)

  datatype ScheduledChange = ScheduledChange(nextAuthorities: seq<nat>, delay: nat)

  datatype PendingChange = PendingChange(nextAuthorities: seq<nat>, delay: nat, canonHeight: nat, canonHash: Hash,
                                         delayKind: DelayKind)

  /** A block to import, with the changes its digest announces. */
  datatype Block = Block(hash: Hash, number: nat, forced: Option<(nat, ScheduledChange)>,
                         scheduled: Option<ScheduledChange>, justified: bool)

  datatype Added = Added(ok: bool, after: AuthoritySet)
  datatype Forced = ForcedFails | NothingForced | NewSet(median: nat, replacement: AuthoritySet)
  datatype Standard = StandardFails | NothingEnacted | Enacts(root: bool)

  /** The operations of the authority set, for the block being imported. */
  datatype SetOps = SetOps(addPendingChange: (AuthoritySet, PendingChange) -> Added,
                           applyForcedChanges: AuthoritySet -> Forced,
                           enactsStandardChange: AuthoritySet -> Standard)

  datatype Status = InChain | Unknown | StatusFails

  /** The ways in which the client's import declines a block. */
  datatype Refusal = AlreadyInChain | KnownBad | UnknownParent | MissingState

  datatype Inner = InnerImported | InnerRefused(reason: Refusal) | InnerFails

  /** What the client answers: the block's status, the finalized number, headers by number, the import, the
      justification. */
  datatype Client = Client(status: Status, finalizedNumber: nat, hashAt: nat -> Option<Hash>, inner: Inner,
                           justificationOk: bool)

  datatype NewAuthoritySet = NewAuthoritySet(canonNumber: nat, canonHash: Hash, setId: nat, authorities: seq<nat>)

  datatype AppliedChanges = AppliedStandard(root: bool) | AppliedForced(newSet: NewAuthoritySet) | AppliedNone {
    predicate NeedsJustification() { AppliedStandard? }
  }

  /** The auxiliary entries that go into the block's database transaction. */
  datatype Aux = Aux(authoritySet: AuthoritySet, state: Option<NewAuthoritySet>)

  datatype Command = Pause | ChangeAuthorities(newSet: NewAuthoritySet)

  datatype ImportResult =
    | Imported(clearRequests: bool, badJustification: bool, needsJustification: bool)
    | Refused(reason: Refusal)
    | ImportError

  function CheckNewChange(hardForks: map<Hash, PendingChange>, b: Block): (change: Option<PendingChange>)
    ensures b.hash in hardForks ==> change == Some(hardForks[b.hash])
    ensures b.hash !in hardForks ==> (change.Some? <==> b.forced.Some? || b.scheduled.Some?)
    ensures b.hash !in hardForks && change.Some? ==>
      var announced := if b.forced.Some? then b.forced.value.1 else b.scheduled.value;
      && change.value.canonHash == b.hash && change.value.canonHeight == b.number
      && change.value.nextAuthorities == announced.nextAuthorities && change.value.delay == announced.delay
      && change.value.delayKind == (if b.forced.Some? then Best(b.forced.value.0) else Finalized)
  {
    if b.hash in hardForks then Some(hardForks[b.hash])
    else if b.forced.Some? then
      var (median, c) := b.forced.value;
      Some(PendingChange(c.nextAuthorities, c.delay, b.number, b.hash, Best(median)))
    else if b.scheduled.Some? then
      var c := b.scheduled.value;
      Some(PendingChange(c.nextAuthorities, c.delay, b.number, b.hash, Finalized))
    else None
  }

  // ------------------------------------------------------------ what the changes come to

  /** The set after a block's changes, and whether it differs in a way that must be written. */
  datatype Made = Failed | Made(after: AuthoritySet, touched: bool, applied: AppliedChanges, doPause: bool)

  function Making(ops: SetOps, client: Client, s: AuthoritySet, change: Option<PendingChange>): Made {
    var added := if change.Some? then ops.addPendingChange(s, change.value) else Added(true, s);
    var pause := change.Some? && change.value.delayKind.Best?;
    if !added.ok then Failed
    else
      match ops.applyForcedChanges(added.after)
      case ForcedFails => Failed
      case NewSet(median, replacement) =>
        var number := if client.finalizedNumber < median then client.finalizedNumber else median;
        var hash := client.hashAt(number);
        if hash.None? then Failed
        else Made(replacement, true,
                  AppliedForced(NewAuthoritySet(number, hash.value, replacement.setId, replacement.authorities)), pause)
      case NothingForced =>
        match ops.enactsStandardChange(added.after)
        case StandardFails => Failed
        case NothingEnacted => Made(added.after, change.Some?, AppliedNone, pause)
        case Enacts(root) => Made(added.after, change.Some?, AppliedStandard(root), pause)
  }

  function AuxOf(m: Made): Option<Aux>
    requires m.Made?
  {
    if m.touched then Some(Aux(m.after, if m.applied.AppliedForced? then Some(m.applied.newSet) else None)) else None
  }

  /** The set after announcing the block's change, if it has one. */
  function Announced(ops: SetOps, s: AuthoritySet, change: Option<PendingChange>): Added {
    if change.Some? then ops.addPendingChange(s, change.value) else Added(true, s)
  }

  /** A new authority set starts at the lower one of the median and the local finalized block, with the hash the
      client has there, and with the replacement's identity and authorities. */
  predicate StartsAt(n: NewAuthoritySet, client: Client, median: nat, replacement: AuthoritySet) {
    && n.canonNumber <= client.finalizedNumber && n.canonNumber <= median
    && (n.canonNumber == client.finalizedNumber || n.canonNumber == median)
    && client.hashAt(n.canonNumber) == Some(n.canonHash)
    && n.setId == replacement.setId && n.authorities == replacement.authorities
  }

  /** What making a block's changes comes to. It fails exactly when announcing fails, forcing fails, the block where a
      forced set starts is unknown, or, with nothing forced, looking for a standard change fails. A forced set replaces
      the announced one; a standard change is applied only when nothing was forced. */
  lemma MakingExact(ops: SetOps, client: Client, s: AuthoritySet, change: Option<PendingChange>)
    ensures var m, added := Making(ops, client, s, change), Announced(ops, s, change);
      var forced, standard := ops.applyForcedChanges(added.after), ops.enactsStandardChange(added.after);
      && (m.Failed? <==>
            || !added.ok
            || forced.ForcedFails?
            || (forced.NewSet? && exists n | n == client.finalizedNumber || n == forced.median ::
                  n <= client.finalizedNumber && n <= forced.median && client.hashAt(n).None?)
            || (forced.NothingForced? && standard.StandardFails?))
      && (m.Made? ==>
            && m.after == (if forced.NewSet? then forced.replacement else added.after)
            && (m.applied.AppliedForced? <==> forced.NewSet?)
            && (forced.NewSet? ==> StartsAt(m.applied.newSet, client, forced.median, forced.replacement))
            && (forall root ::
                  m.applied == AppliedStandard(root) <==> forced.NothingForced? && standard == Enacts(root))
            && (m.touched <==> change.Some? || forced.NewSet?)
            && (m.doPause <==> change.Some? && change.value.delayKind.Best?))
  {
    var forced := ops.applyForcedChanges(Announced(ops, s, change).after);
    if forced.NewSet? {
      var n := if client.finalizedNumber < forced.median then client.finalizedNumber else forced.median;
      assert n == client.finalizedNumber || n == forced.median;
    }
  }

  /** What goes to disk with the block: the new set, and a new voter state exactly for a forced set. */
  lemma AuxExact(m: Made)
    requires m.Made?
    ensures AuxOf(m).Some? <==> m.touched
    ensures m.touched ==> AuxOf(m).value.authoritySet == m.after
    ensures m.touched ==> (m.applied.AppliedForced? <==> AuxOf(m).value.state.Some?)
    ensures m.touched && m.applied.AppliedForced? ==> AuxOf(m).value.state == Some(m.applied.newSet)
  {
  }

  // ------------------------------------------------------------ guards

  class SharedAuthoritySet {
    var current: AuthoritySet
    var writeLocked: bool

    constructor (s: AuthoritySet)
      ensures current == s && !writeLocked
    {
      current, writeLocked := s, false;
    }
  }

  /** Holds the write lock while changes are made; dropping it puts the old set back if there is one. */
  class InnerGuard {
    const shared: SharedAuthoritySet
    var previous: Option<AuthoritySet>
    var guard: bool

    constructor (shared: SharedAuthoritySet)
      requires !shared.writeLocked
      modifies shared
      ensures this.shared == shared && previous == None && guard
      ensures shared.writeLocked && shared.current == old(shared.current)
    {
      this.shared, previous, guard := shared, None, true;
      new;
      shared.writeLocked := true;
    }

    /** Only the first old set counts. */
    method SetOld(s: AuthoritySet)
      modifies this`previous
      ensures previous == if old(previous).None? then Some(s) else old(previous)
    {
      if previous.None? { previous := Some(s); }
    }

    /** Gives the old set and the lock away; without an old set the lock is released. */
    method Consume() returns (justInCase: Option<AuthoritySet>)
      requires guard
      modifies this, shared
      ensures justInCase == old(previous) && !guard && previous == None
      ensures shared.current == old(shared.current)
      ensures shared.writeLocked == (old(shared.writeLocked) && justInCase.Some?)
    {
      justInCase := previous;
      if justInCase.Some? { previous, guard := None, false; }
      Drop();
    }

    method Drop()
      modifies this, shared
      ensures !guard && previous == None
      ensures shared.current == if old(guard) && old(previous).Some? then old(previous).value else old(shared.current)
      ensures shared.writeLocked == (old(shared.writeLocked) && !old(guard))
    {
      if guard {
        if previous.Some? { shared.current := previous.value; }
        shared.writeLocked := false;
      }
      guard, previous := false, None;
    }
  }

  /** Keeps the old set, and the lock with it, until the block is written. */
  class PendingSetChanges {
    const shared: SharedAuthoritySet
    var justInCase: Option<AuthoritySet>
    const appliedChanges: AppliedChanges
    const doPause: bool

    constructor (shared: SharedAuthoritySet, justInCase: Option<AuthoritySet>, appliedChanges: AppliedChanges,
                 doPause: bool)
      ensures this.shared == shared && this.justInCase == justInCase
      ensures this.appliedChanges == appliedChanges && this.doPause == doPause
    {
      this.shared, this.justInCase, this.appliedChanges, this.doPause := shared, justInCase, appliedChanges, doPause;
    }

    /** Reverting is dropping with the old set still there. */
    method Drop()
      modifies this, shared
      ensures shared.current == if old(justInCase).Some? then old(justInCase).value else old(shared.current)
      ensures shared.writeLocked == (old(shared.writeLocked) && old(justInCase).None?)
    {
      if justInCase.Some? {
        shared.current := justInCase.value;
        shared.writeLocked := false;
        justInCase := None;
      }
    }

    /** The old set is forgotten and the lock released. */
    method Defuse()
      modifies this, shared
      ensures shared.current == old(shared.current)
      ensures shared.writeLocked == (old(shared.writeLocked) && old(justInCase).None?)
    {
      if justInCase.Some? { shared.writeLocked := false; }
      justInCase := None;
      Drop();
    }
  }

  // ------------------------------------------------------------ import

  /** Makes the block's changes to the shared set. A failure, wherever it happens, leaves the set as it was. */
  method MakeAuthoritiesChanges(shared: SharedAuthoritySet, ops: SetOps, client: Client,
                                hardForks: map<Hash, PendingChange>, b: Block)
    returns (pending: PendingSetChanges?, aux: Option<Aux>)
    requires !shared.writeLocked
    modifies shared
    ensures var m := Making(ops, client, old(shared.current), CheckNewChange(hardForks, b));
      && (m.Failed? ==> pending == null && shared.current == old(shared.current) && !shared.writeLocked && aux == None)
      && (m.Made? ==>
            && pending != null && fresh(pending) && pending.shared == shared
            && shared.current == m.after && aux == AuxOf(m)
            && pending.justInCase == (if m.touched then Some(old(shared.current)) else None)
            && (pending.justInCase.None? ==> shared.current == old(shared.current))
            && shared.writeLocked == m.touched
            && pending.appliedChanges == m.applied && pending.doPause == m.doPause)
  {
    pending, aux := null, None;
    var change := CheckNewChange(hardForks, b);
    var guard := new InnerGuard(shared);
    var doPause := false;
    if change.Some? {
      guard.SetOld(shared.current);
      if change.value.delayKind.Best? { doPause := true; }
      var added := ops.addPendingChange(shared.current, change.value);
      shared.current := added.after;
      if !added.ok { guard.Drop(); return; }
    }
    var applied := AppliedNone;
    match ops.applyForcedChanges(shared.current) {
      case ForcedFails =>
        guard.Drop();
        return;
      case NewSet(median, replacement) =>
        var canonNumber := if client.finalizedNumber < median then client.finalizedNumber else median;
        var canonHash := client.hashAt(canonNumber);
        if canonHash.None? { guard.Drop(); return; }
        applied := AppliedForced(NewAuthoritySet(canonNumber, canonHash.value, replacement.setId,
                                                 replacement.authorities));
        var before := shared.current;
        shared.current := replacement;
        guard.SetOld(before);
      case NothingForced =>
        match ops.enactsStandardChange(shared.current) {
          case StandardFails =>
            guard.Drop();
            return;
          case NothingEnacted =>
          case Enacts(root) => applied := AppliedStandard(root);
        }
    }
    var justInCase := guard.Consume();
    if justInCase.Some? {
      aux := Some(Aux(shared.current, if applied.AppliedForced? then Some(applied.newSet) else None));
    }
    pending := new PendingSetChanges(shared, justInCase, applied, doPause);
  }

  /** Every exit other than `Imported` leaves the set as it was and sends nothing to the voter. After `Imported` the
      set is the one in the block's auxiliary entries, or it is unchanged and none was written. The lock is free
      again. */
  method ImportBlock(shared: SharedAuthoritySet, ops: SetOps, client: Client, hardForks: map<Hash, PendingChange>,
                     b: Block)
    returns (result: ImportResult, aux: Option<Aux>, commands: seq<Command>)
    requires !shared.writeLocked
    modifies shared
    ensures !shared.writeLocked
    ensures !result.Imported? ==> shared.current == old(shared.current) && aux == None && commands == []
    ensures result.Imported? ==> shared.current == if aux.Some? then aux.value.authoritySet else old(shared.current)
    ensures var m := Making(ops, client, old(shared.current), CheckNewChange(hardForks, b));
      && (result.Imported? <==> client.status == Unknown && m.Made? && client.inner == InnerImported)
      && (forall reason :: result == Refused(reason) <==>
            || (client.status == InChain && reason == AlreadyInChain)
            || (client.status == Unknown && m.Made? && client.inner == InnerRefused(reason)))
      && (result.Imported? ==>
            && shared.current == m.after && aux == AuxOf(m)
            && result.clearRequests == m.applied.AppliedForced?
            && (result.needsJustification <==>
                  m.applied.AppliedStandard? && !(b.justified && m.applied.root && client.justificationOk))
            && (result.badJustification ==> result.needsJustification && b.justified)
            && commands == (if m.doPause then [Pause] else [])
              + (if m.applied.AppliedForced? then [ChangeAuthorities(m.applied.newSet)] else []))
    ensures var change := CheckNewChange(hardForks, b);
      var added := Announced(ops, old(shared.current), change);
      var forced := ops.applyForcedChanges(added.after);
      result.Imported? ==>
        && shared.current == (if forced.NewSet? then forced.replacement else added.after)
        && (Pause in commands <==> change.Some? && change.value.delayKind.Best?)
        && (forall n :: ChangeAuthorities(n) in commands ==>
              forced.NewSet? && StartsAt(n, client, forced.median, forced.replacement))
        && (forced.NewSet? ==> commands != [] && commands[|commands| - 1].ChangeAuthorities?)
        && (aux.Some? <==> change.Some? || forced.NewSet?)
        && (result.needsJustification ==> !forced.NewSet?)
  {
    result, aux, commands := ImportError, None, [];
    MakingExact(ops, client, shared.current, CheckNewChange(hardForks, b));
    if client.status == InChain { result := Refused(AlreadyInChain); return; }
    if client.status == StatusFails { return; }
    var pending, entries := MakeAuthoritiesChanges(shared, ops, client, hardForks, b);
    if pending == null { return; }
    var justification := b.justified;
    if client.inner != InnerImported {
      pending.Drop();
      if client.inner.InnerRefused? { result := Refused(client.inner.reason); }
      return;
    }
    aux := entries;
    var applied, doPause := pending.appliedChanges, pending.doPause;
    pending.Defuse();
    if doPause { commands := commands + [Pause]; }
    var needs := applied.NeedsJustification();
    result := Imported(false, false, false);
    if applied.AppliedForced? {
      commands := commands + [ChangeAuthorities(applied.newSet)];
      result := result.(clearRequests := true);
    } else if applied == AppliedStandard(false) {
      justification := false;
    }
    if justification {
      if !client.justificationOk && needs { result := result.(badJustification := true, needsJustification := true); }
    } else if needs {
      result := result.(needsJustification := true);
    }
  }

  // ------------------------------------------------------------ memory and disk over many imports

  /** The set in memory and the one in the database. */
  datatype Sets = Sets(memory: AuthoritySet, disk: AuthoritySet)

  datatype Attempt = Attempt(ops: SetOps, client: Client, hardForks: map<Hash, PendingChange>, block: Block)

  /** One import: the database commits the auxiliary entries only when the block is imported. */
  function Imports(s: Sets, a: Attempt): Sets {
    var m := Making(a.ops, a.client, s.memory, CheckNewChange(a.hardForks, a.block));
    if a.client.status == Unknown && m.Made? && a.client.inner == InnerImported
    then Sets(m.after, if AuxOf(m).Some? then AuxOf(m).value.authoritySet else s.disk)
    else s
  }

  function ImportsAll(s: Sets, attempts: seq<Attempt>): Sets {
    if attempts == [] then s else Imports(ImportsAll(s, attempts[..|attempts| - 1]), attempts[|attempts| - 1])
  }

  /** Whatever blocks are imported, refused or failed, the set in memory is the set on disk. */
  lemma {:induction false} MemoryIsDisk(s: Sets, attempts: seq<Attempt>)
    requires s.memory == s.disk
    ensures var end := ImportsAll(s, attempts); end.memory == end.disk
  {
    if attempts != [] {
      MemoryIsDisk(s, attempts[..|attempts| - 1]);
    }
  }
}
