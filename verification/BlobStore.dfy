/**
 The content-addressed store under concurrent writers: every process goes through the steps of
 `put_bytes`, `put_file` or `adopt_verified_file`, any of them may stop for good at any step, and files
 outside the store may change at any time unless an adoption owns them.
 */
module BlobStore {
  import opened Wrappers

  type Bytes = seq<int>
  type Digest = string
  type ProcessId = nat

  /** Where a file can be: committed under its digest, a temporary of the store, or elsewhere. */
  datatype Path = Blob(digest: Digest) | Temporary(id: nat) | Source(name: string)

  datatype Operation =
    | PutBytes(data: Bytes)
    | PutFile(source: string, digest: Digest, size: nat)
    | Adopt(source: string, digest: Digest, size: nat)

  /** How far a process is: before its lock, holding it, past its look at the target, writing, or finished. */
  datatype Process =
    | Idle
    | Waiting(op: Operation)
    | Holding(op: Operation)
    | Absent(op: Operation)
    | Present(op: Operation)
    | Writing(op: Operation, temporary: nat)
    | Finished(op: Operation, committed: bool)

  datatype Store = Store(
    files: map<Path, Bytes>, locks: map<Digest, ProcessId>, owners: map<string, ProcessId>,
    processes: map<ProcessId, Process>)

  datatype Action =
    | Begin(p: ProcessId, op: Operation)
    | Acquire(p: ProcessId)
    | Look(p: ProcessId)
    | CreateTemporary(p: ProcessId, id: nat)
    | Append(p: ProcessId, chunk: Bytes)
    | Publish(p: ProcessId)
    | FinishPresent(p: ProcessId)
    | Move(p: ProcessId)
    | Release(p: ProcessId)
    | Crash(p: ProcessId)
    | Disturb(name: string, content: Option<Bytes>)

  type Hash = Bytes -> Digest

  function DigestOf(h: Hash, op: Operation): Digest {
    if op.PutBytes? then h(op.data) else op.digest
  }

  function SizeOf(op: Operation): nat {
    if op.PutBytes? then |op.data| else op.size
  }

  function ProcessAt(s: Store, p: ProcessId): Process {
    if p in s.processes then s.processes[p] else Idle
  }

  function At(s: Store, p: ProcessId, process: Process): Store {
    s.(processes := s.processes[p := process])
  }

  function Without<K, V>(m: map<K, V>, k: K): map<K, V> {
    map x | x in m && x != k :: m[x]
  }

  /** `_validate_existing`: size and content of the file that is already there. */
  predicate ValidExisting(h: Hash, content: Bytes, op: Operation) {
    |content| == SizeOf(op) && h(content) == DigestOf(h, op)
  }

  /** The adoption precondition: nobody else owns the file, and its digest and size are as stated. */
  predicate MayAdopt(h: Hash, s: Store, op: Operation) {
    op.Adopt? ==> Source(op.source) in s.files && op.source !in s.owners
                  && h(s.files[Source(op.source)]) == op.digest && |s.files[Source(op.source)]| == op.size
  }

  /** An action that its process cannot take now changes nothing. */
  function Step(h: Hash, s: Store, a: Action): Store {
    match a
    case Begin(p, op) =>
      if ProcessAt(s, p) != Idle || !MayAdopt(h, s, op) then s
      else
        var owned := if op.Adopt? then s.(owners := s.owners[op.source := p]) else s;
        At(owned, p, Waiting(op))
    case Acquire(p) =>
      var process := ProcessAt(s, p);
      if !process.Waiting? || DigestOf(h, process.op) in s.locks then s
      else At(s.(locks := s.locks[DigestOf(h, process.op) := p]), p, Holding(process.op))
    case Look(p) =>
      var process := ProcessAt(s, p);
      if !process.Holding? then s
      else
        var target := Blob(DigestOf(h, process.op));
        if target !in s.files then At(s, p, Absent(process.op))
        else if ValidExisting(h, s.files[target], process.op) then At(s, p, Present(process.op))
        else At(s, p, Finished(process.op, false))
    case CreateTemporary(p, id) =>
      var process := ProcessAt(s, p);
      if !process.Absent? || process.op.Adopt? || Temporary(id) in s.files then s
      else At(s.(files := s.files[Temporary(id) := []]), p, Writing(process.op, id))
    case Append(p, chunk) =>
      var process := ProcessAt(s, p);
      if !process.Writing? || Temporary(process.temporary) !in s.files then s
      else
        var grown := s.files[Temporary(process.temporary)] + chunk;
        if process.op.PutBytes? && !(grown <= process.op.data) then s
        else s.(files := s.files[Temporary(process.temporary) := grown])
    case Publish(p) =>
      var process := ProcessAt(s, p);
      if !process.Writing? || Temporary(process.temporary) !in s.files then s
      else
        var content := s.files[Temporary(process.temporary)];
        var rest := Without(s.files, Temporary(process.temporary));
        if process.op.PutBytes? then
          if content != process.op.data then s
          else At(s.(files := rest[Blob(DigestOf(h, process.op)) := content]), p, Finished(process.op, true))
        else if |content| == process.op.size && h(content) == process.op.digest then
          At(s.(files := rest[Blob(process.op.digest) := content]), p, Finished(process.op, true))
        else At(s.(files := rest), p, Finished(process.op, false))
    case FinishPresent(p) =>
      var process := ProcessAt(s, p);
      if !process.Present? then s
      else if !process.op.Adopt? then At(s, p, Finished(process.op, true))
      else
        At(s.(files := Without(s.files, Source(process.op.source)), owners := Without(s.owners, process.op.source)),
           p, Finished(process.op, true))
    case Move(p) =>
      var process := ProcessAt(s, p);
      if !process.Absent? || !process.op.Adopt? || Source(process.op.source) !in s.files then s
      else
        var content := s.files[Source(process.op.source)];
        if |content| != process.op.size then At(s, p, Finished(process.op, false))
        else
          At(s.(files := Without(s.files, Source(process.op.source))[Blob(process.op.digest) := content],
                owners := Without(s.owners, process.op.source)), p, Finished(process.op, true))
    case Release(p) =>
      var process := ProcessAt(s, p);
      if !process.Finished? then s
      else At(s.(locks := Without(s.locks, DigestOf(h, process.op)), owners := Disown(s.owners, p)), p, Idle)
    case Crash(p) =>
      At(s.(locks := Unlock(s.locks, p), owners := Disown(s.owners, p)), p, Idle)
    case Disturb(name, content) =>
      if name in s.owners then s
      else if content == None then s.(files := Without(s.files, Source(name)))
      else s.(files := s.files[Source(name) := content.value])
  }

  function Disown(owners: map<string, ProcessId>, p: ProcessId): map<string, ProcessId> {
    map name | name in owners && owners[name] != p :: owners[name]
  }

  /** The operating system gives up the locks of a process that dies. */
  function Unlock(locks: map<Digest, ProcessId>, p: ProcessId): map<Digest, ProcessId> {
    map d | d in locks && locks[d] != p :: locks[d]
  }

  function Run(h: Hash, s: Store, actions: seq<Action>): Store {
    if actions == [] then s else Step(h, Run(h, s, actions[..|actions| - 1]), actions[|actions| - 1])
  }

  // ---------- The invariant ----------

  ghost predicate BlobsMatch(h: Hash, s: Store) {
    forall d :: Blob(d) in s.files ==> h(s.files[Blob(d)]) == d
  }

  predicate HoldsLock(process: Process) {
    !process.Idle? && !process.Waiting?
  }

  /** What a process relies on at its step. */
  ghost predicate Placed(h: Hash, s: Store, p: ProcessId, process: Process) {
    && (HoldsLock(process) ==> DigestOf(h, process.op) in s.locks && s.locks[DigestOf(h, process.op)] == p)
    && (process.Absent? || process.Writing? ==> Blob(DigestOf(h, process.op)) !in s.files)
    && (process.Present? ==> Blob(DigestOf(h, process.op)) in s.files)
    && (process.Writing? ==> !process.op.Adopt? && Temporary(process.temporary) in s.files
                             && (process.op.PutBytes? ==> s.files[Temporary(process.temporary)] <= process.op.data))
    && (!process.Idle? && !process.Finished? && process.op.Adopt? ==>
          && process.op.source in s.owners && s.owners[process.op.source] == p
          && Source(process.op.source) in s.files && h(s.files[Source(process.op.source)]) == process.op.digest
          && |s.files[Source(process.op.source)]| == process.op.size)
  }

  ghost predicate Separate(s: Store) {
    forall p, q :: p != q && p in s.processes && q in s.processes
                   && s.processes[p].Writing? && s.processes[q].Writing?
                   ==> s.processes[p].temporary != s.processes[q].temporary
  }

  /** Every lock is held by a process that is working on that digest: a crash leaves none behind. */
  ghost predicate LocksAreLive(h: Hash, s: Store) {
    forall d :: d in s.locks ==> LiveLock(h, s, d)
  }

  ghost predicate LiveLock(h: Hash, s: Store, d: Digest)
    requires d in s.locks
  {
    var process := ProcessAt(s, s.locks[d]);
    HoldsLock(process) && DigestOf(h, process.op) == d
  }

  ghost predicate Invariant(h: Hash, s: Store) {
    && BlobsMatch(h, s)
    && LocksAreLive(h, s)
    && Separate(s)
    && forall p :: p in s.processes ==> Placed(h, s, p, s.processes[p])
  }

  /** The committed content, by digest. */
  ghost predicate Extends(before: Store, after: Store) {
    forall d :: Blob(d) in before.files ==> Blob(d) in after.files && after.files[Blob(d)] == before.files[Blob(d)]
  }

  function Actor(a: Action): Option<ProcessId> {
    if a.Disturb? then None else Some(a.p)
  }

  /** The process that takes the step, if there is one, is placed. */
  ghost predicate ActorPlaced(h: Hash, s: Store, a: Action) {
    Actor(a).Some? && a.p in s.processes ==> Placed(h, s, a.p, s.processes[a.p])
  }

  ghost predicate StaysPlaced(h: Hash, s: Store, s': Store, q: ProcessId)
    requires q in s.processes
  {
    q in s'.processes && s'.processes[q] == s.processes[q] && Placed(h, s', q, s.processes[q])
  }

  lemma OtherDuringWrites(h: Hash, s: Store, a: Action, q: ProcessId)
    requires a.CreateTemporary? || a.Append? || a.Publish?
    requires Separate(s) && ActorPlaced(h, s, a)
    requires Actor(a) != Some(q) && q in s.processes && Placed(h, s, q, s.processes[q])
    ensures StaysPlaced(h, s, Step(h, s, a), q)
  {
  }

  lemma OtherDuringAdoption(h: Hash, s: Store, a: Action, q: ProcessId)
    requires a.FinishPresent? || a.Move? || a.Disturb?
    requires Separate(s) && ActorPlaced(h, s, a)
    requires Actor(a) != Some(q) && q in s.processes && Placed(h, s, q, s.processes[q])
    ensures StaysPlaced(h, s, Step(h, s, a), q)
  {
  }

  lemma OtherDuringLocking(h: Hash, s: Store, a: Action, q: ProcessId)
    requires a.Begin? || a.Acquire? || a.Look?
    requires Separate(s) && ActorPlaced(h, s, a)
    requires Actor(a) != Some(q) && q in s.processes && Placed(h, s, q, s.processes[q])
    ensures StaysPlaced(h, s, Step(h, s, a), q)
  {
  }

  lemma OtherDuringEnd(h: Hash, s: Store, a: Action, q: ProcessId)
    requires a.Release? || a.Crash?
    requires Separate(s) && ActorPlaced(h, s, a)
    requires Actor(a) != Some(q) && q in s.processes && Placed(h, s, q, s.processes[q])
    ensures StaysPlaced(h, s, Step(h, s, a), q)
  {
  }

  /** A process is not affected by the steps of another. */
  lemma OtherStaysPlaced(h: Hash, s: Store, a: Action, q: ProcessId)
    requires Separate(s) && ActorPlaced(h, s, a)
    requires Actor(a) != Some(q) && q in s.processes && Placed(h, s, q, s.processes[q])
    ensures StaysPlaced(h, s, Step(h, s, a), q)
  {
    if a.CreateTemporary? || a.Append? || a.Publish? {
      OtherDuringWrites(h, s, a, q);
    } else if a.FinishPresent? || a.Move? || a.Disturb? {
      OtherDuringAdoption(h, s, a, q);
    } else if a.Release? || a.Crash? {
      OtherDuringEnd(h, s, a, q);
    } else {
      OtherDuringLocking(h, s, a, q);
    }
  }

  lemma ActorDuringWrites(h: Hash, s: Store, a: Action)
    requires a.CreateTemporary? || a.Append? || a.Publish?
    requires ActorPlaced(h, s, a)
    ensures var s' := Step(h, s, a); a.p in s'.processes ==> Placed(h, s', a.p, s'.processes[a.p])
  {
  }

  lemma ActorDuringAdoption(h: Hash, s: Store, a: Action)
    requires a.FinishPresent? || a.Move?
    requires ActorPlaced(h, s, a)
    ensures var s' := Step(h, s, a); a.p in s'.processes ==> Placed(h, s', a.p, s'.processes[a.p])
  {
  }

  lemma ActorDuringLocking(h: Hash, s: Store, a: Action)
    requires a.Begin? || a.Acquire? || a.Look? || a.Release? || a.Crash?
    requires ActorPlaced(h, s, a)
    ensures var s' := Step(h, s, a); a.p in s'.processes ==> Placed(h, s', a.p, s'.processes[a.p])
  {
  }

  /** The process that takes the step is where its new state says. */
  lemma ActorIsPlaced(h: Hash, s: Store, a: Action)
    requires ActorPlaced(h, s, a) && Actor(a).Some?
    ensures var s' := Step(h, s, a); a.p in s'.processes ==> Placed(h, s', a.p, s'.processes[a.p])
  {
    if a.CreateTemporary? || a.Append? || a.Publish? {
      ActorDuringWrites(h, s, a);
    } else if a.FinishPresent? || a.Move? {
      ActorDuringAdoption(h, s, a);
    } else {
      ActorDuringLocking(h, s, a);
    }
  }

  lemma PublishingKeepsBlobs(h: Hash, s: Store, p: ProcessId)
    requires BlobsMatch(h, s) && (p in s.processes ==> Placed(h, s, p, s.processes[p]))
    ensures BlobsMatch(h, Step(h, s, Publish(p))) && Extends(s, Step(h, s, Publish(p)))
  {
  }

  lemma MovingKeepsBlobs(h: Hash, s: Store, p: ProcessId)
    requires BlobsMatch(h, s) && (p in s.processes ==> Placed(h, s, p, s.processes[p]))
    ensures BlobsMatch(h, Step(h, s, Move(p))) && Extends(s, Step(h, s, Move(p)))
  {
  }

  lemma OthersLeaveBlobs(h: Hash, s: Store, a: Action)
    requires BlobsMatch(h, s) && !a.Publish? && !a.Move?
    ensures BlobsMatch(h, Step(h, s, a)) && Extends(s, Step(h, s, a))
  {
  }

  /** Committed entries stay as they are, and what is committed hashes to its digest. */
  lemma BlobsStay(h: Hash, s: Store, a: Action)
    requires Invariant(h, s)
    ensures BlobsMatch(h, Step(h, s, a)) && Extends(s, Step(h, s, a))
  {
    match a
    case Publish(p) => PublishingKeepsBlobs(h, s, p);
    case Move(p) => MovingKeepsBlobs(h, s, p);
    case _ => OthersLeaveBlobs(h, s, a);
  }

  lemma StaysSeparate(h: Hash, s: Store, a: Action)
    requires Invariant(h, s)
    ensures Separate(Step(h, s, a))
  {
    if a.CreateTemporary? {
      forall q | q in s.processes && s.processes[q].Writing?
        ensures s.processes[q].temporary != a.id || Temporary(a.id) in s.files
      {
        assert Placed(h, s, q, s.processes[q]);
      }
    }
  }

  lemma LockDuringLocking(h: Hash, s: Store, a: Action, d: Digest)
    requires a.Begin? || a.Acquire? || a.Release? || a.Crash?
    requires ActorPlaced(h, s, a)
    requires d in Step(h, s, a).locks && (d in s.locks ==> LiveLock(h, s, d))
    ensures LiveLock(h, Step(h, s, a), d)
  {
  }

  lemma LockDuringWork(h: Hash, s: Store, a: Action, d: Digest)
    requires !(a.Begin? || a.Acquire? || a.Release? || a.Crash?)
    requires ActorPlaced(h, s, a)
    requires d in Step(h, s, a).locks && (d in s.locks ==> LiveLock(h, s, d))
    ensures LiveLock(h, Step(h, s, a), d)
  {
  }

  lemma LockStaysLive(h: Hash, s: Store, a: Action, d: Digest)
    requires ActorPlaced(h, s, a)
    requires d in Step(h, s, a).locks && (d in s.locks ==> LiveLock(h, s, d))
    ensures LiveLock(h, Step(h, s, a), d)
  {
    if a.Begin? || a.Acquire? || a.Release? || a.Crash? {
      LockDuringLocking(h, s, a, d);
    } else {
      LockDuringWork(h, s, a, d);
    }
  }

  lemma StepKeepsInvariant(h: Hash, s: Store, a: Action)
    requires Invariant(h, s)
    ensures Invariant(h, Step(h, s, a)) && Extends(s, Step(h, s, a))
  {
    var s' := Step(h, s, a);
    BlobsStay(h, s, a);
    StaysSeparate(h, s, a);
    forall d | d in s'.locks
      ensures LiveLock(h, s', d)
    {
      LockStaysLive(h, s, a, d);
    }
    forall q | q in s'.processes
      ensures Placed(h, s', q, s'.processes[q])
    {
      if Actor(a) == Some(q) {
        ActorIsPlaced(h, s, a);
      } else {
        NoNewProcess(h, s, a, q);
        OtherStaysPlaced(h, s, a, q);
      }
    }
  }

  lemma NoNewProcess(h: Hash, s: Store, a: Action, q: ProcessId)
    requires Actor(a) != Some(q) && q in Step(h, s, a).processes
    ensures q in s.processes
  {
  }

  // ---------- Whole histories ----------

  /** No process at work, and nothing but sound blobs in the store. */
  ghost predicate Quiet(h: Hash, s: Store) {
    s.processes == map[] && s.locks == map[] && BlobsMatch(h, s)
  }

  /** Under any interleaving with any crashes, the store stays sound and never loses or changes an entry. */
  lemma {:induction false} HistoryKeepsStore(h: Hash, s: Store, actions: seq<Action>)
    requires Quiet(h, s)
    ensures Invariant(h, Run(h, s, actions))
    ensures Extends(s, Run(h, s, actions))
  {
    if actions != [] {
      var before := actions[..|actions| - 1];
      HistoryKeepsStore(h, s, before);
      StepKeepsInvariant(h, Run(h, s, before), actions[|actions| - 1]);
    }
  }

  /** What is committed at some moment is committed, unchanged, at every later one. */
  lemma {:induction false} CommittedForever(h: Hash, s: Store, actions: seq<Action>, i: nat)
    requires Quiet(h, s) && i <= |actions|
    ensures Extends(Run(h, s, actions[..i]), Run(h, s, actions))
  {
    if i == |actions| {
      assert actions[..i] == actions;
    } else {
      var before := actions[..|actions| - 1];
      CommittedForever(h, s, before, i);
      assert before[..i] == actions[..i];
      HistoryKeepsStore(h, s, before);
      StepKeepsInvariant(h, Run(h, s, before), actions[|actions| - 1]);
    }
  }

  // ---------- The map that the store refines ----------

  function Entries(s: Store): map<Digest, Bytes> {
    map p | p in s.files && p.Blob? :: p.digest := s.files[p]
  }

  /** A step of the abstract store: nothing, or one new entry under its own digest. */
  ghost predicate AddsOne(h: Hash, before: map<Digest, Bytes>, after: map<Digest, Bytes>) {
    after == before || exists content :: h(content) !in before && after == before[h(content) := content]
  }

  /** A step commits nothing, or the one blob that it writes. */
  ghost predicate Commits(h: Hash, s: Store, s': Store, content: Bytes) {
    && Blob(h(content)) !in s.files
    && forall d :: (Blob(d) in s'.files <==> Blob(d) in s.files || d == h(content))
                   && (Blob(d) in s'.files ==>
                          s'.files[Blob(d)] == if d == h(content) then content else s.files[Blob(d)])
  }

  ghost predicate SameBlobs(s: Store, s': Store) {
    forall d :: (Blob(d) in s'.files <==> Blob(d) in s.files)
                && (Blob(d) in s'.files ==> s'.files[Blob(d)] == s.files[Blob(d)])
  }

  lemma StepCommits(h: Hash, s: Store, a: Action)
    requires ActorPlaced(h, s, a)
    ensures SameBlobs(s, Step(h, s, a)) || exists content :: Commits(h, s, Step(h, s, a), content)
  {
    if a.Publish? {
      PublishCommits(h, s, a);
    } else if a.Move? {
      MoveCommits(h, s, a);
    } else {
      assert SameBlobs(s, Step(h, s, a));
    }
  }

  lemma PublishCommits(h: Hash, s: Store, a: Action)
    requires ActorPlaced(h, s, a) && a.Publish?
    ensures SameBlobs(s, Step(h, s, a)) || exists content :: Commits(h, s, Step(h, s, a), content)
  {
    var s' := Step(h, s, a);
    if ProcessAt(s, a.p).Writing? && ProcessAt(s', a.p) == Finished(ProcessAt(s, a.p).op, true) {
      assert Commits(h, s, s', s.files[Temporary(ProcessAt(s, a.p).temporary)]);
    } else {
      assert SameBlobs(s, s');
    }
  }

  lemma MoveCommits(h: Hash, s: Store, a: Action)
    requires ActorPlaced(h, s, a) && a.Move?
    ensures SameBlobs(s, Step(h, s, a)) || exists content :: Commits(h, s, Step(h, s, a), content)
  {
    var s' := Step(h, s, a);
    if ProcessAt(s, a.p).Absent? && ProcessAt(s', a.p) == Finished(ProcessAt(s, a.p).op, true) {
      assert Commits(h, s, s', s.files[Source(ProcessAt(s, a.p).op.source)]);
    } else {
      assert SameBlobs(s, s');
    }
  }

  lemma SameEntries(s: Store, s': Store)
    requires SameBlobs(s, s')
    ensures Entries(s') == Entries(s)
  {
  }

  lemma OneMoreEntry(h: Hash, s: Store, s': Store, content: Bytes)
    requires Commits(h, s, s', content)
    ensures h(content) !in Entries(s) && Entries(s') == Entries(s)[h(content) := content]
  {
  }

  /** Every step of the store is a step of a map that only grows. */
  lemma StepRefinesMap(h: Hash, s: Store, a: Action)
    requires Invariant(h, s)
    ensures AddsOne(h, Entries(s), Entries(Step(h, s, a)))
  {
    var s' := Step(h, s, a);
    StepCommits(h, s, a);
    if SameBlobs(s, s') {
      SameEntries(s, s');
    } else {
      var content :| Commits(h, s, s', content);
      OneMoreEntry(h, s, s', content);
    }
  }

  /** The operation of a process has just ended well. */
  predicate Completes(h: Hash, s: Store, a: Action, op: Operation) {
    && Actor(a).Some?
    && ProcessAt(s, a.p) != Finished(op, true)
    && ProcessAt(Step(h, s, a), a.p) == Finished(op, true)
  }

  ghost predicate Collisionless(h: Hash) {
    forall a, b :: h(a) == h(b) ==> a == b
  }

  /** A completed operation has its content in the store, and a completed adoption has consumed its source. */
  lemma CompletedIsStored(h: Hash, s: Store, a: Action, op: Operation)
    requires Invariant(h, s) && Completes(h, s, a, op)
    ensures var s' := Step(h, s, a);
      && Blob(DigestOf(h, op)) in s'.files
      && h(s'.files[Blob(DigestOf(h, op))]) == DigestOf(h, op)
      && (Collisionless(h) && op.PutBytes? ==> s'.files[Blob(h(op.data))] == op.data)
      && (op.Adopt? ==> Source(op.source) !in s'.files)
  {
    assert Placed(h, s, a.p, s.processes[a.p]);
    StepKeepsInvariant(h, s, a);
  }

  /** Without collisions, writing bytes never finds a blob that it would have to report as corrupt. */
  lemma PutBytesIsNeverRefused(h: Hash, s: Store, p: ProcessId)
    requires Invariant(h, s) && Collisionless(h)
    requires ProcessAt(s, p).Holding? && ProcessAt(s, p).op.PutBytes?
    ensures !ProcessAt(Step(h, s, Look(p)), p).Finished?
  {
    assert BlobsMatch(h, s);
  }
}