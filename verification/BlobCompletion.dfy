/**
 What becomes of an operation on its way through the store: alone on its digest it runs to its end,
 refused only for a changed source or an unsound blob, and no state of the store leaves it stuck.
 */
module BlobCompletion {
  import opened Sorting
  import opened BlobStore

  /** What a step function makes of a state, step by step. */
  function Fold<S, A>(step: (S, A) -> S, s: S, actions: seq<A>): S {
    if actions == [] then s else step(Fold(step, s, actions[..|actions| - 1]), actions[|actions| - 1])
  }

  lemma {:induction false} FoldInTwo<S, A>(step: (S, A) -> S, s: S, a: seq<A>, b: seq<A>)
    ensures Fold(step, s, a + b) == Fold(step, Fold(step, s, a), b)
  {
    if b == [] {
      assert a + b == a;
    } else {
      var n := |b| - 1;
      FoldInTwo(step, s, a, b[..n]);
      assert (a + b)[..|a| + n] == a + b[..n];
    }
  }

  function Stepping(h: Hash): (Store, Action) -> Store {
    (s, a) => Step(h, s, a)
  }

  lemma {:induction false} RunIsFold(h: Hash, s: Store, actions: seq<Action>)
    ensures Run(h, s, actions) == Fold(Stepping(h), s, actions)
  {
    if actions != [] {
      RunIsFold(h, s, actions[..|actions| - 1]);
    }
  }

  lemma RunInTwo(h: Hash, s: Store, a: seq<Action>, b: seq<Action>)
    ensures Run(h, s, a + b) == Run(h, Run(h, s, a), b)
  {
    RunIsFold(h, s, a + b);
    RunIsFold(h, s, a);
    RunIsFold(h, Run(h, s, a), b);
    FoldInTwo(Stepping(h), s, a, b);
  }

  lemma RunOne(h: Hash, s: Store, a: Action)
    ensures Run(h, s, [a]) == Step(h, s, a)
  {
    assert [a][..0] == [];
  }

  lemma {:induction false} RunKeepsInvariant(h: Hash, s: Store, actions: seq<Action>)
    requires Invariant(h, s)
    ensures Invariant(h, Run(h, s, actions)) && Extends(s, Run(h, s, actions))
  {
    if actions != [] {
      RunKeepsInvariant(h, s, actions[..|actions| - 1]);
      StepKeepsInvariant(h, Run(h, s, actions[..|actions| - 1]), actions[|actions| - 1]);
    }
  }

  /** Nothing has changed but the files and the process `p`. */
  ghost predicate OnlyFiles(s: Store, s': Store, p: ProcessId) {
    && s'.locks == s.locks && s'.owners == s.owners
    && forall q :: q != p ==> ProcessAt(s', q) == ProcessAt(s, q)
  }

  /** A process writes chunk by chunk what it reads. */
  function Appends(p: ProcessId, chunks: seq<Bytes>): (actions: seq<Action>)
    ensures forall a <- actions :: a.Append?
  {
    if chunks == [] then [] else [Append(p, chunks[0])] + Appends(p, chunks[1..])
  }

  lemma {:induction false} Appended(h: Hash, s: Store, p: ProcessId, chunks: seq<Bytes>)
    requires ProcessAt(s, p).Writing? && Temporary(ProcessAt(s, p).temporary) in s.files
    requires var process := ProcessAt(s, p);
      process.op.PutBytes? ==> s.files[Temporary(process.temporary)] + Flatten(chunks) <= process.op.data
    ensures var temporary := Temporary(ProcessAt(s, p).temporary);
      Run(h, s, Appends(p, chunks))
      == s.(files := s.files[temporary := s.files[temporary] + Flatten(chunks)])
    decreases |chunks|
  {
    var temporary := Temporary(ProcessAt(s, p).temporary);
    if chunks == [] {
      assert s.files[temporary] + [] == s.files[temporary];
      assert s.files[temporary := s.files[temporary]] == s.files;
    } else {
      var grown := s.files[temporary] + chunks[0];
      assert grown + Flatten(chunks[1..]) == s.files[temporary] + Flatten(chunks);
      var s' := Step(h, s, Append(p, chunks[0]));
      assert s' == s.(files := s.files[temporary := grown]);
      RunInTwo(h, s, [Append(p, chunks[0])], Appends(p, chunks[1..]));
      RunOne(h, s, Append(p, chunks[0]));
      Appended(h, s', p, chunks[1..]);
    }
  }

  /** What an operation puts into the store: the data given, what it has read of its source, or the source itself. */
  function Contribution(s: Store, op: Operation, read: Bytes): Bytes {
    match op
    case PutBytes(data) => data
    case PutFile(_, _, _) => read
    case Adopt(source, _, _) => if Source(source) in s.files then s.files[Source(source)] else []
  }

  /** A file whose digest or size is not what it was when the operation began. */
  predicate Changed(h: Hash, op: Operation, read: Bytes) {
    op.PutFile? && (|read| != op.size || h(read) != op.digest)
  }

  /** The files that an operation leaves when its target is not there yet. */
  function FilesAfter(h: Hash, s: Store, op: Operation, read: Bytes): map<Path, Bytes> {
    if Changed(h, op, read) then s.files
    else
      var kept := if op.Adopt? then Without(s.files, Source(op.source)) else s.files;
      kept[Blob(DigestOf(h, op)) := Contribution(s, op, read)]
  }

  /** An absent target is written, or an adopted file is moved there. */
  function Writes(p: ProcessId, op: Operation, id: nat, chunks: seq<Bytes>): seq<Action> {
    if op.Adopt? then [Move(p)] else [CreateTemporary(p, id)] + (Appends(p, chunks) + [Publish(p)])
  }

  lemma PublishEnds(h: Hash, s: Store, p: ProcessId, op: Operation, id: nat, files: map<Path, Bytes>)
    requires ProcessAt(s, p) == Writing(op, id) && !op.Adopt? && Temporary(id) in s.files && Temporary(id) !in files
    requires forall x :: x != Temporary(id) ==>
               (x in s.files <==> x in files) && (x in files ==> s.files[x] == files[x])
    requires op.PutBytes? ==> s.files[Temporary(id)] == op.data
    ensures var read, s' := s.files[Temporary(id)], Step(h, s, Publish(p));
      && ProcessAt(s', p) == Finished(op, !Changed(h, op, read)) && OnlyFiles(s, s', p)
      && s'.files == if Changed(h, op, read) then files else files[Blob(DigestOf(h, op)) := read]
  {
  }

  /** How an operation ends whose target was absent: only a changed source keeps its content out of the store. */
  ghost predicate EndsAbsent(h: Hash, s: Store, s': Store, p: ProcessId, op: Operation, read: Bytes) {
    && ProcessAt(s', p) == Finished(op, !Changed(h, op, read))
    && s'.files == FilesAfter(h, s, op, read)
    && s'.locks == s.locks && s'.owners == (if op.Adopt? then Without(s.owners, op.source) else s.owners)
    && forall q :: q != p ==> ProcessAt(s', q) == ProcessAt(s, q)
  }

  lemma MoveEnds(h: Hash, s: Store, p: ProcessId, read: Bytes)
    requires ProcessAt(s, p).Absent? && ProcessAt(s, p).op.Adopt? && Placed(h, s, p, ProcessAt(s, p))
    ensures EndsAbsent(h, s, Step(h, s, Move(p)), p, ProcessAt(s, p).op, read)
  {
  }

  lemma CopyEnds(h: Hash, s: Store, p: ProcessId, id: nat, chunks: seq<Bytes>)
    requires ProcessAt(s, p).Absent? && !ProcessAt(s, p).op.Adopt? && Temporary(id) !in s.files
    requires var op := ProcessAt(s, p).op; op.PutBytes? ==> Flatten(chunks) == op.data
    ensures var created := Step(h, s, CreateTemporary(p, id));
      var written := Run(h, created, Appends(p, chunks));
      EndsAbsent(h, s, Step(h, written, Publish(p)), p, ProcessAt(s, p).op, Flatten(chunks))
  {
    var created := Step(h, s, CreateTemporary(p, id));
    assert [] + Flatten(chunks) == Flatten(chunks);
    Appended(h, created, p, chunks);
    var written := Run(h, created, Appends(p, chunks));
    PublishEnds(h, written, p, ProcessAt(s, p).op, id, s.files);
  }

  lemma WritesEnd(h: Hash, s: Store, p: ProcessId, id: nat, chunks: seq<Bytes>)
    requires Placed(h, s, p, ProcessAt(s, p)) && ProcessAt(s, p).Absent? && Temporary(id) !in s.files
    requires var op := ProcessAt(s, p).op; op.PutBytes? ==> Flatten(chunks) == op.data
    ensures var op := ProcessAt(s, p).op;
      EndsAbsent(h, s, Run(h, s, Writes(p, op, id, chunks)), p, op, Flatten(chunks))
  {
    var op := ProcessAt(s, p).op;
    if op.Adopt? {
      RunOne(h, s, Move(p));
      MoveEnds(h, s, p, Flatten(chunks));
    } else {
      var created := Step(h, s, CreateTemporary(p, id));
      RunInTwo(h, s, [CreateTemporary(p, id)], Appends(p, chunks) + [Publish(p)]);
      RunOne(h, s, CreateTemporary(p, id));
      RunInTwo(h, created, Appends(p, chunks), [Publish(p)]);
      RunOne(h, Run(h, created, Appends(p, chunks)), Publish(p));
      CopyEnds(h, s, p, id, chunks);
    }
  }

  /** A process has locked its digest, and found a blob of the right size there, another one, or none. */
  ghost predicate LookedUp(h: Hash, s: Store, s': Store, p: ProcessId, op: Operation) {
    var d := DigestOf(h, op);
    && s'.files == s.files && s'.locks == s.locks[d := p]
    && s'.owners == (if op.Adopt? then s.owners[op.source := p] else s.owners)
    && (forall q :: q != p ==> ProcessAt(s', q) == ProcessAt(s, q))
    && ProcessAt(s', p) == if Blob(d) !in s.files then Absent(op)
                           else if |s.files[Blob(d)]| == SizeOf(op) then Present(op) else Finished(op, false)
  }

  lemma LocksAndLooks(h: Hash, s: Store, p: ProcessId, op: Operation)
    requires BlobsMatch(h, s) && ProcessAt(s, p).Idle? && MayAdopt(h, s, op) && DigestOf(h, op) !in s.locks
    ensures LookedUp(h, s, Step(h, Step(h, Step(h, s, Begin(p, op)), Acquire(p)), Look(p)), p, op)
  {
    assert Blob(DigestOf(h, op)) in s.files ==> h(s.files[Blob(DigestOf(h, op))]) == DigestOf(h, op);
  }

  lemma RunThree(h: Hash, s: Store, a: Action, b: Action, c: Action)
    ensures Run(h, s, [a, b, c]) == Step(h, Step(h, Step(h, s, a), b), c)
  {
    assert [a, b, c] == [a] + ([b] + [c]);
    RunInTwo(h, s, [a], [b] + [c]);
    RunOne(h, s, a);
    RunInTwo(h, Step(h, s, a), [b], [c]);
    RunOne(h, Step(h, s, a), b);
    RunOne(h, Step(h, Step(h, s, a), b), c);
  }

  /** The steps of an operation that nothing disturbs, from its start to its end. */
  function Alone(h: Hash, s: Store, p: ProcessId, op: Operation, id: nat, chunks: seq<Bytes>): seq<Action> {
    var target := Blob(DigestOf(h, op));
    [Begin(p, op), Acquire(p), Look(p)]
    + if target !in s.files then Writes(p, op, id, chunks)
      else if |s.files[target]| == SizeOf(op) then [FinishPresent(p)] else []
  }

  /** It is refused for a blob of another size under its digest, or for a source that has changed. */
  predicate Refused(h: Hash, s: Store, op: Operation, read: Bytes) {
    var target := Blob(DigestOf(h, op));
    if target in s.files then |s.files[target]| != SizeOf(op) else Changed(h, op, read)
  }

  /** How an operation that runs alone on its digest ends. */
  ghost predicate EndsAlone(h: Hash, s: Store, s': Store, p: ProcessId, op: Operation, read: Bytes) {
    var d, refused := DigestOf(h, op), Refused(h, s, op, read);
    && ProcessAt(s', p) == Finished(op, !refused)
    && s'.files == (if refused then s.files
                    else if Blob(d) !in s.files then FilesAfter(h, s, op, read)
                    else if op.Adopt? then Without(s.files, Source(op.source)) else s.files)
    && s'.locks == s.locks[d := p]
    && s'.owners == (if op.Adopt? && refused then s.owners[op.source := p] else s.owners)
    && forall q :: q != p ==> ProcessAt(s', q) == ProcessAt(s, q)
  }

  lemma AbsentEnds(h: Hash, s: Store, looked: Store, s': Store, p: ProcessId, op: Operation, read: Bytes)
    requires LookedUp(h, s, looked, p, op) && Blob(DigestOf(h, op)) !in s.files && MayAdopt(h, s, op)
    requires EndsAbsent(h, looked, s', p, op, read)
    ensures EndsAlone(h, s, s', p, op, read)
  {
    assert op.Adopt? ==> Without(s.owners[op.source := p], op.source) == s.owners;
  }

  lemma PresentEnds(h: Hash, s: Store, looked: Store, p: ProcessId, op: Operation, read: Bytes)
    requires LookedUp(h, s, looked, p, op) && ProcessAt(looked, p).Present? && MayAdopt(h, s, op)
    ensures EndsAlone(h, s, Step(h, looked, FinishPresent(p)), p, op, read)
  {
    assert op.Adopt? ==> Without(s.owners[op.source := p], op.source) == s.owners;
  }

  lemma RefusedEnds(h: Hash, s: Store, looked: Store, p: ProcessId, op: Operation, read: Bytes)
    requires LookedUp(h, s, looked, p, op) && ProcessAt(looked, p).Finished?
    ensures EndsAlone(h, s, looked, p, op, read)
  {
  }

  /**
   An operation alone on its digest is carried out, whatever other processes have in hand: its content
   is in the store at its end, unless the store holds an unsound blob or the source has changed.
   */
  lemma AloneEnds(h: Hash, s: Store, p: ProcessId, op: Operation, id: nat, chunks: seq<Bytes>)
    requires Invariant(h, s) && ProcessAt(s, p).Idle? && MayAdopt(h, s, op)
    requires DigestOf(h, op) !in s.locks && Temporary(id) !in s.files
    requires op.PutBytes? ==> Flatten(chunks) == op.data
    ensures EndsAlone(h, s, Run(h, s, Alone(h, s, p, op, id, chunks)), p, op, Flatten(chunks))
  {
    var start := [Begin(p, op), Acquire(p), Look(p)];
    var looked := Run(h, s, start);
    RunThree(h, s, Begin(p, op), Acquire(p), Look(p));
    LocksAndLooks(h, s, p, op);
    if Blob(DigestOf(h, op)) !in s.files {
      RunKeepsInvariant(h, s, start);
      RunInTwo(h, s, start, Writes(p, op, id, chunks));
      WritesEnd(h, looked, p, id, chunks);
      AbsentEnds(h, s, looked, Run(h, looked, Writes(p, op, id, chunks)), p, op, Flatten(chunks));
    } else if ProcessAt(looked, p).Present? {
      RunInTwo(h, s, start, [FinishPresent(p)]);
      RunOne(h, looked, FinishPresent(p));
      PresentEnds(h, s, looked, p, op, Flatten(chunks));
    } else {
      assert start + [] == start;
      RefusedEnds(h, s, looked, p, op, Flatten(chunks));
    }
  }

  /** What the caller states about its source is true, and this is what the operation reads of it. */
  predicate AsStated(h: Hash, s: Store, op: Operation, read: Bytes) {
    match op
    case PutBytes(data) => read == data
    case PutFile(source, digest, size) =>
      && Source(source) in s.files && read == s.files[Source(source)]
      && |read| == size && h(read) == digest
    case Adopt(source, digest, size) =>
      && Source(source) in s.files && source !in s.owners && read == s.files[Source(source)]
      && |read| == size && h(read) == digest
  }

  lemma NothingLeftBehind(h: Hash, s: Store, s': Store, p: ProcessId, op: Operation, read: Bytes)
    requires EndsAlone(h, s, s', p, op, read) && DigestOf(h, op) !in s.locks && !Refused(h, s, op, read)
    ensures var s'' := Step(h, s', Release(p));
      && ProcessAt(s'', p) == Idle && s''.files == s'.files
      && s''.locks == s.locks && s''.owners == Disown(s.owners, p)
  {
    assert Without(s.locks[DigestOf(h, op) := p], DigestOf(h, op)) == s.locks;
  }

  /**
   Without collisions, an operation whose source is as stated, alone on its digest, leaves exactly its
   content under its digest, whether it was there before or not; an adopted source is gone.
   */
  lemma StatedIsStored(h: Hash, s: Store, p: ProcessId, op: Operation, id: nat, chunks: seq<Bytes>)
    requires Invariant(h, s) && Collisionless(h) && ProcessAt(s, p).Idle? && AsStated(h, s, op, Flatten(chunks))
    requires DigestOf(h, op) !in s.locks && Temporary(id) !in s.files
    ensures var s' := Run(h, s, Alone(h, s, p, op, id, chunks));
      var s'' := Step(h, s', Release(p));
      && ProcessAt(s', p) == Finished(op, true) && ProcessAt(s'', p) == Idle
      && s''.locks == s.locks && s''.owners == Disown(s.owners, p)
      && s''.files == (if op.Adopt? then Without(s.files, Source(op.source)) else s.files)
                      [Blob(h(Flatten(chunks))) := Flatten(chunks)]
  {
    var s', read := Run(h, s, Alone(h, s, p, op, id, chunks)), Flatten(chunks);
    AloneEnds(h, s, p, op, id, chunks);
    if Blob(h(read)) in s.files {
      assert h(s.files[Blob(h(read))]) == h(read);
      assert s.files[Blob(h(read)) := read] == s.files;
    }
    NothingLeftBehind(h, s, s', p, op, read);
  }

  // ---------- No state is stuck ----------

  /** A process with the lock on its digest has come to its end; nothing else has changed but files. */
  ghost predicate HasFinished(s: Store, s': Store, p: ProcessId)
    requires !ProcessAt(s, p).Idle?
  {
    && ProcessAt(s', p).Finished? && ProcessAt(s', p).op == ProcessAt(s, p).op && s'.locks == s.locks
    && (forall q :: q != p ==> ProcessAt(s', q) == ProcessAt(s, q))
    && forall t :: Temporary(t) in s'.files ==> Temporary(t) in s.files
  }

  /** Steps that a process takes on its own account. */
  ghost predicate Alive(actions: seq<Action>) {
    forall a <- actions :: !a.Crash? && !a.Disturb?
  }

  lemma WriterFinishes(h: Hash, s: Store, p: ProcessId) returns (actions: seq<Action>)
    requires Placed(h, s, p, ProcessAt(s, p)) && ProcessAt(s, p).Writing?
    ensures HasFinished(s, Run(h, s, actions), p) && Alive(actions)
  {
    var op, temporary := ProcessAt(s, p).op, Temporary(ProcessAt(s, p).temporary);
    var content := s.files[temporary];
    var chunks := if op.PutBytes? then [op.data[|content|..]] else [];
    assert op.PutBytes? ==> content + Flatten(chunks) == op.data by {
      assert op.PutBytes? ==> Flatten(chunks) == op.data[|content|..] + [];
    }
    actions := Appends(p, chunks) + [Publish(p)];
    Appended(h, s, p, chunks);
    RunInTwo(h, s, Appends(p, chunks), [Publish(p)]);
    RunOne(h, Run(h, s, Appends(p, chunks)), Publish(p));
  }

  lemma AbsentFinishes(h: Hash, s: Store, p: ProcessId, id: nat) returns (actions: seq<Action>)
    requires Placed(h, s, p, ProcessAt(s, p)) && ProcessAt(s, p).Absent? && Temporary(id) !in s.files
    ensures HasFinished(s, Run(h, s, actions), p) && Alive(actions)
  {
    var op := ProcessAt(s, p).op;
    var chunks := if op.PutBytes? then [op.data] else [];
    assert op.PutBytes? ==> Flatten(chunks) == op.data + [];
    actions := Writes(p, op, id, chunks);
    WritesEnd(h, s, p, id, chunks);
  }

  lemma PresentFinishes(h: Hash, s: Store, p: ProcessId)
    requires ProcessAt(s, p).Present?
    ensures HasFinished(s, Run(h, s, [FinishPresent(p)]), p)
  {
    RunOne(h, s, FinishPresent(p));
  }

  lemma HolderLooks(h: Hash, s: Store, p: ProcessId)
    requires Invariant(h, s) && ProcessAt(s, p).Holding?
    ensures var s' := Step(h, s, Look(p));
      && Run(h, s, [Look(p)]) == s' && Invariant(h, s') && s'.locks == s.locks && s'.files == s.files
      && HoldsLock(ProcessAt(s', p)) && !ProcessAt(s', p).Holding? && ProcessAt(s', p).op == ProcessAt(s, p).op
      && forall q :: q != p ==> ProcessAt(s', q) == ProcessAt(s, q)
  {
    RunOne(h, s, Look(p));
    StepKeepsInvariant(h, s, Look(p));
  }

  /** A process that holds its lock can go on to its end alone. */
  lemma HolderFinishes(h: Hash, s: Store, p: ProcessId, id: nat) returns (actions: seq<Action>)
    requires Invariant(h, s) && HoldsLock(ProcessAt(s, p)) && Temporary(id) !in s.files
    ensures HasFinished(s, Run(h, s, actions), p) && Alive(actions)
    decreases if ProcessAt(s, p).Holding? then 1 else 0
  {
    match ProcessAt(s, p)
    case Finished(_, _) =>
      actions := [];
    case Present(_) =>
      PresentFinishes(h, s, p);
      actions := [FinishPresent(p)];
    case Writing(_, _) =>
      actions := WriterFinishes(h, s, p);
    case Absent(_) =>
      actions := AbsentFinishes(h, s, p, id);
    case Holding(_) =>
      HolderLooks(h, s, p);
      var rest := HolderFinishes(h, Step(h, s, Look(p)), p, id);
      RunInTwo(h, s, [Look(p)], rest);
      actions := [Look(p)] + rest;
  }

  /**
   No state of a store is stuck: a process at work can be brought to its end, if need be after the
   process whose lock it waits for, and no process has to die for it.
   */
  lemma NeverStuck(h: Hash, s: Store, p: ProcessId, id: nat) returns (actions: seq<Action>)
    requires Invariant(h, s) && !ProcessAt(s, p).Idle? && Temporary(id) !in s.files
    ensures ProcessAt(Run(h, s, actions), p).Finished? && ProcessAt(Run(h, s, actions), p).op == ProcessAt(s, p).op
    ensures Alive(actions)
    decreases if !ProcessAt(s, p).Waiting? then 0 else if DigestOf(h, ProcessAt(s, p).op) in s.locks then 2 else 1
  {
    if HoldsLock(ProcessAt(s, p)) {
      actions := HolderFinishes(h, s, p, id);
      return;
    }
    var d := DigestOf(h, ProcessAt(s, p).op);
    var first := [Acquire(p)];
    if d in s.locks {
      assert LiveLock(h, s, d);
      var work := HolderFinishes(h, s, s.locks[d], id);
      first := work + [Release(s.locks[d])];
      RunInTwo(h, s, work, [Release(s.locks[d])]);
      RunOne(h, Run(h, s, work), Release(s.locks[d]));
    } else {
      RunOne(h, s, Acquire(p));
    }
    RunKeepsInvariant(h, s, first);
    var rest := NeverStuck(h, Run(h, s, first), p, id);
    actions := first + rest;
    RunInTwo(h, s, first, rest);
  }
}
