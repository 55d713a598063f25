/** What the three kinds of projection keep, and what holds of it while events are
    handed to them (architecturekit/projection.go). */
module ProjectionWriters {
  import opened Basics
  import opened EventLog

  datatype Kind = Rebuild | Resumable | Transactional

  /** Where a projection writes: the events it has applied, in the order it has
      applied them, and the checkpoint it has saved. The target of a resumable
      or transactional projection survives a crash. */
  datatype Target = Target(applied: Log, saved: Option<nat>)

  /** What the writer of one run remembers: the last event it applied, and the
      events applied within the open transaction, if there is one. */
  datatype Writer = Writer(lastApplied: Option<nat>, tx: Option<Log>)

  /** Where a run of a resumable projection took over, as a place in the stream,
      and what its target held then, and where its saved checkpoint is. */
  datatype Account = Account(origin: nat, before: Log, savedAt: nat)

  /** What the writer says to go on from. */
  function Checkpoint(kind: Kind, target: Target, writer: Writer): Option<nat> {
    match kind
    case Rebuild => writer.lastApplied
    case Resumable => if writer.lastApplied.Some? then writer.lastApplied else target.saved
    case Transactional => target.saved
  }

  /** The first k events of the stream have been handed over in order, each once:
      all of them since the last start for a rebuilt projection, all but the
      pending ones durably for a transactional one, and those since the run took
      over for a resumable one, whose target had the others already. */
  ghost predicate Held(
      kind: Kind, stream: Log, target: Target, writer: Writer, account: Account, k: nat, pending: Log)
  {
    && k <= |stream|
    && match kind
       case Rebuild => pending == [] && target.applied == stream[..k] && writer.lastApplied == LastId(stream[..k])
       case Transactional => target.applied + pending == stream[..k] && target.saved == LastId(target.applied)
       case Resumable =>
         && pending == []
         && account.origin <= k && account.savedAt <= k
         && target.applied == account.before + stream[account.origin..k]
         && Includes(account.before, stream, account.origin)
         && writer.lastApplied == (if k == account.origin then None else LastId(stream[..k]))
         && (k == account.origin ==> account.savedAt == k)
         && target.saved == LastId(stream[..account.savedAt])
  }

  ghost predicate Includes(applied: Log, stream: Log, n: nat)
    requires n <= |stream|
  {
    forall i | 0 <= i < n :: stream[i] in applied
  }

  /** What holds of the target at every moment, so that it survives a crash. A
      transactional target holds exactly the events up to its checkpoint, each
      once and in order. A resumable one has at least applied all of them, so
      that none is lost. A rebuilt one has applied the first events, each once
      and in order, since its last start. */
  ghost predicate Durable(kind: Kind, stream: Log, target: Target) {
    match kind
    case Rebuild => target.applied <= stream
    case Transactional => target.applied <= stream && target.saved == LastId(target.applied)
    case Resumable => exists n ::
      0 <= n <= |stream| && target.saved == LastId(stream[..n]) && Includes(target.applied, stream, n)
  }

  /** What a run of a resumable projection has applied at every moment: a stretch
      of the stream without a gap or a repetition, right from where it took over. */
  ghost predicate Continues(kind: Kind, stream: Log, target: Target, account: Account) {
    kind.Resumable? ==>
      exists k :: account.origin <= k <= |stream| && target.applied == account.before + stream[account.origin..k]
  }

  lemma {:induction false} HeldIsDurable(
      kind: Kind, stream: Log, target: Target, writer: Writer, account: Account, k: nat, pending: Log)
    requires Held(kind, stream, target, writer, account, k, pending)
    ensures Durable(kind, stream, target) && Continues(kind, stream, target, account)
    ensures pending == [] ==> Checkpoint(kind, target, writer) == LastId(stream[..k])
  {
    if kind.Resumable? {
      forall i | 0 <= i < k ensures stream[i] in target.applied {
        if i >= account.origin {
          assert stream[account.origin..k][i - account.origin] == stream[i];
        }
      }
    } else if kind.Transactional? {
      assert target.applied <= stream[..k] <= stream;
      assert pending == [] ==> target.applied == stream[..k];
    }
  }

  lemma {:induction false} IncludesEarlier(applied: Log, earlier: Log, stream: Log, n: nat)
    requires n <= |stream| && Includes(applied, stream, n) && earlier <= stream && |earlier| <= n
    ensures Includes(applied, earlier, |earlier|)
  {
    assert forall i | 0 <= i < |earlier| :: earlier[i] == stream[i];
  }

  /** Between two moments of a run at which nothing is pending, the target has grown by
      exactly the events that were handed over. */
  lemma {:induction false} HeldStretch(
      kind: Kind, earlier: Log, before: Target, writer: Writer, account: Account, k0: nat, stream: Log, after: Target,
      nowWriter: Writer, nowAccount: Account, k: nat)
    requires Held(kind, earlier, before, writer, account, k0, [])
    requires Held(kind, stream, after, nowWriter, nowAccount, k, [])
    requires earlier <= stream && before.applied <= after.applied
    requires account.origin == nowAccount.origin && account.before == nowAccount.before
    ensures k0 <= k && after.applied == before.applied + stream[k0..k]
  {
    var i := if kind.Resumable? then account.origin else 0;
    var held := if kind.Resumable? then account.before else [];
    assert before.applied + [] == before.applied && after.applied + [] == after.applied;
    assert stream[..k0] == stream[0..k0] == earlier[..k0] == earlier[0..k0] && stream[..k] == stream[0..k];
    assert before.applied == held + stream[i..k0] && after.applied == held + stream[i..k];
    StretchGoesOn(held, stream, i, k0, k);
  }

  lemma {:induction false} StretchGoesOn(held: Log, stream: Log, i: nat, j: nat, k: nat)
    requires i <= j <= |stream| && i <= k <= |stream| && held + stream[i..j] <= held + stream[i..k]
    ensures j <= k && held + stream[i..k] == held + stream[i..j] + stream[j..k]
  {
    assert |held + stream[i..j]| <= |held + stream[i..k]|;
    assert stream[i..k] == stream[i..j] + stream[j..k];
  }

  /** Everything that has been handed over is in the target. */
  lemma {:induction false} HeldIncludes(
      kind: Kind, stream: Log, target: Target, writer: Writer, account: Account, k: nat)
    requires Held(kind, stream, target, writer, account, k, [])
    ensures Includes(target.applied, stream, k)
  {
    forall i | 0 <= i < k ensures stream[i] in target.applied {
      assert stream[..k][i] == stream[i];
      if kind.Resumable? {
        assert i >= account.origin ==> stream[account.origin..k][i - account.origin] == stream[i];
      } else {
        assert kind.Transactional? ==> target.applied + [] == target.applied;
      }
    }
  }

  lemma {:induction false} HeldGrows(
      kind: Kind, stream: Log, more: Log, target: Target, writer: Writer, account: Account, k: nat, pending: Log)
    requires Held(kind, stream, target, writer, account, k, pending)
    ensures Held(kind, stream + more, target, writer, account, k, pending)
  {
    assert (stream + more)[..k] == stream[..k];
    if kind.Resumable? {
      assert (stream + more)[account.origin..k] == stream[account.origin..k];
      assert (stream + more)[..account.savedAt] == stream[..account.savedAt];
    }
  }

  /** An event that is applied outside of a transaction. */
  function Applied(target: Target, event: Stored): Target { target.(applied := target.applied + [event]) }

  lemma {:induction false} HeldApply(kind: Kind, stream: Log, target: Target, writer: Writer, account: Account, k: nat)
    requires !kind.Transactional? && Held(kind, stream, target, writer, account, k, []) && k < |stream|
    ensures Held(kind, stream, Applied(target, stream[k]), writer.(lastApplied := Some(stream[k].id)), account, k + 1,
      [])
  {
    assert stream[..k + 1] == stream[..k] + [stream[k]];
    if kind.Resumable? {
      assert stream[account.origin..k + 1] == stream[account.origin..k] + [stream[k]];
    }
  }

  lemma {:induction false} HeldApplyInTx(
      stream: Log, target: Target, writer: Writer, account: Account, k: nat, pending: Log)
    requires Held(Transactional, stream, target, writer, account, k, pending) && k < |stream|
    ensures Held(Transactional, stream, target, writer.(tx := Some(pending + [stream[k]])), account, k + 1,
      pending + [stream[k]])
  {
    assert target.applied + (pending + [stream[k]]) == (target.applied + pending) + [stream[k]] == stream[..k + 1];
  }

  /** A commit makes what is pending durable together with the last event ID; for
      a resumable projection, it saves the checkpoint after the data. */
  function Committed(kind: Kind, target: Target, writer: Writer, last: Option<nat>): Target {
    match kind
    case Rebuild => target
    case Resumable => target.(saved := last)
    case Transactional => Target(target.applied + (if writer.tx.Some? then writer.tx.value else []), last)
  }

  /** A transaction is over once it has been committed, or the commit has failed. */
  function Closed(kind: Kind, writer: Writer): Writer {
    if kind.Transactional? then writer.(tx := None) else writer
  }

  lemma {:induction false} HeldCommit(
      kind: Kind, stream: Log, target: Target, writer: Writer, account: Account, k: nat, pending: Log)
    requires Held(kind, stream, target, writer, account, k, pending) && 0 < k
    requires kind.Transactional? ==> writer.tx == Some(pending)
    requires kind.Resumable? ==> account.origin < k
    ensures Held(kind, stream, Committed(kind, target, writer, LastId(stream[..k])), Closed(kind, writer),
                 account.(savedAt := if kind.Resumable? then k else account.savedAt), k, [])
  {
    if kind.Transactional? {
      assert target.applied + pending + [] == stream[..k];
    }
  }

  /** What is pending is undone, and nothing else. */
  lemma {:induction false} HeldRollback(
      stream: Log, target: Target, writer: Writer, other: Writer, account: Account, k: nat, pending: Log)
    requires Held(Transactional, stream, target, writer, account, k, pending)
    ensures |target.applied| <= k && Held(Transactional, stream, target, other, account, |target.applied|, [])
  {
    assert target.applied == stream[..|target.applied|] && target.applied + [] == target.applied;
  }

  /** A new start: a rebuilt projection begins anew, and any other one goes on from
      what its target holds. */
  function Restarted(kind: Kind, target: Target): Target {
    if kind.Rebuild? then Target([], None) else target
  }

  lemma {:induction false} HeldRestart(kind: Kind, stream: Log, target: Target) returns (account: Account, k: nat)
    requires Durable(kind, stream, target)
    ensures Held(kind, stream, Restarted(kind, target), Writer(None, None), account, k, [])
  {
    match kind
    case Rebuild => account, k := Account(0, [], 0), 0;
    case Transactional =>
      account, k := Account(0, [], 0), |target.applied|;
      assert target.applied + [] == target.applied == stream[..k];
    case Resumable =>
      var n :| 0 <= n <= |stream| && target.saved == LastId(stream[..n]) && Includes(target.applied, stream, n);
      account, k := Account(n, target.applied, n), n;
      assert target.applied + stream[n..n] == target.applied;
  }
}
