/** The database as the kit sees it: one append-only log whose IDs ascend across
    all subjects, of which a read hands out the events of one subject. */
module EventLog {
  import opened Basics

  datatype Stored = Stored(id: nat, subject: string, typ: string, data: string)

  type Log = seq<Stored>

  ghost predicate Ascending(log: Log) {
    forall i, j :: 0 <= i < j < |log| ==> log[i].id < log[j].id
  }

  function On(subject: string): Stored -> bool { (e: Stored) => e.subject == subject }

  /** The events of one subject, oldest first. */
  function Stream(log: Log, subject: string): Log { Filter(On(subject), log) }

  function LastId(events: Log): Option<nat> {
    if events == [] then None else Some(events[|events| - 1].id)
  }

  /** What a read with an exclusive lower bound hands out; without one, it hands
      out everything. */
  function After(events: Log, bound: Option<nat>): (rest: Log)
    ensures |rest| <= |events|
  {
    if events == [] then []
    else if bound.Some? && events[0].id <= bound.value then After(events[1..], bound)
    else events
  }

  /** Appending only extends every stream. */
  lemma {:induction false} StreamGrows(log: Log, more: Log, subject: string)
    ensures Stream(log + more, subject) == Stream(log, subject) + Stream(more, subject)
  {
    FilterAppend(On(subject), log, more);
  }

  lemma {:induction false} FilterAscends(p: Stored -> bool, log: Log)
    requires Ascending(log)
    ensures Ascending(Filter(p, log))
  {
    if log != [] {
      var rest := Filter(p, log[1..]);
      FilterAscends(p, log[1..]);
      forall i | 0 <= i < |rest| ensures log[0].id < rest[i].id {
        assert rest[i] in log[1..];
      }
    }
  }

  /** The bound that names the n-th event of a stream leaves exactly what
      follows it. */
  lemma {:induction false} AfterPrefix(events: Log, n: nat)
    requires Ascending(events) && n <= |events|
    ensures After(events, LastId(events[..n])) == events[n..]
  {
    if n == 0 {
      assert events[..0] == [] && events[0..] == events;
    } else {
      assert events[..n][n - 1] == events[n - 1];
      DropTo(events, n, events[n - 1].id);
    }
  }

  lemma {:induction false} DropTo(events: Log, n: nat, id: nat)
    requires Ascending(events) && n <= |events|
    requires forall i | 0 <= i < n :: events[i].id <= id
    requires forall i | n <= i < |events| :: id < events[i].id
    ensures After(events, Some(id)) == events[n..]
  {
    if n > 0 {
      DropTo(events[1..], n - 1, id);
      assert events[1..][n - 1..] == events[n..];
    } else {
      assert events[0..] == events;
    }
  }

  /** Two prefixes of an ascending stream that end with the same event are the
      same prefix, so the ID of the last event read names all that was read. */
  lemma {:induction false} LastIdNamesPrefix(events: Log, m: nat, n: nat)
    requires Ascending(events) && m <= |events| && n <= |events|
    requires LastId(events[..m]) == LastId(events[..n])
    ensures m == n
  {
    if m > 0 && n > 0 {
      assert events[..m][m - 1] == events[m - 1] && events[..n][n - 1] == events[n - 1];
    }
  }
}
