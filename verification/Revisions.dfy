/** Revisions: the IDs of events, which the database writes as decimal strings
    and the kit compares as numbers (architecturekit/revision.go). */
module Revisions {
  import opened Basics

  /** The database numbers its events with signed 64-bit integers. */
  const REVISION_LIMIT: nat := 0x8000_0000_0000_0000

  predicate IsDigit(c: char) { '0' <= c <= '9' }

  predicate AllDigits(s: string) { forall i :: 0 <= i < |s| ==> IsDigit(s[i]) }

  /** The number a string of digits stands for, the most significant one first. */
  function NumberOf(digits: string): nat
    requires AllDigits(digits)
  {
    if digits == "" then 0
    else 10 * NumberOf(digits[..|digits| - 1]) + (digits[|digits| - 1] as int - '0' as int)
  }

  /** None stands for ErrNotARevision. */
  function ParseRevision(revision: string): (number: Option<nat>)
    ensures number.Some? ==> number.value < REVISION_LIMIT
  {
    if revision == "" || !AllDigits(revision) then None
    else
      var n := NumberOf(revision);
      if n < REVISION_LIMIT then Some(n) else None
  }

  /** The outer option is missing for a string that is no revision, the inner
      one for the empty revision, which has no number. */
  function RevisionNumber(revision: string): Option<Option<nat>> {
    if revision == "" then Some(None)
    else
      match ParseRevision(revision)
      case None => None
      case Some(n) => Some(Some(n))
  }

  function CompareNumbers(left: nat, right: nat): int {
    if left < right then -1 else if left > right then 1 else 0
  }

  function CompareRevisions(left: string, right: string): Option<int> {
    match (RevisionNumber(left), RevisionNumber(right))
    case (None, _) => None
    case (_, None) => None
    case (Some(None), Some(None)) => Some(0)
    case (Some(None), Some(Some(_))) => Some(-1)
    case (Some(Some(_)), Some(None)) => Some(1)
    case (Some(Some(l)), Some(Some(r))) => Some(CompareNumbers(l, r))
  }

  /** How the database writes the ID of an event. */
  function Decimal(n: nat): (text: string)
    ensures text != "" && AllDigits(text)
  {
    var digit := [('0' as int + n % 10) as char];
    if n < 10 then digit else Decimal(n / 10) + digit
  }

  lemma {:induction false} DecimalRoundTrip(n: nat)
    ensures NumberOf(Decimal(n)) == n
  {
    var text := Decimal(n);
    if n < 10 {
      assert text[..0] == "";
    } else {
      assert text[..|text| - 1] == Decimal(n / 10);
      DecimalRoundTrip(n / 10);
    }
  }

  /** What the database writes is read back, and comparing two IDs compares
      their numbers, although their texts may sort the other way around. */
  lemma {:induction false} ComparesAsNumbers(m: nat, n: nat)
    requires m < REVISION_LIMIT && n < REVISION_LIMIT
    ensures ParseRevision(Decimal(m)) == Some(m)
    ensures CompareRevisions(Decimal(m), Decimal(n)) == Some(CompareNumbers(m, n))
    ensures CompareRevisions("", Decimal(n)) == Some(-1)
  {
    DecimalRoundTrip(m);
    DecimalRoundTrip(n);
  }

  /** At or after: the comparison that WaitFor and the state cache make. */
  predicate Reaches(current: string, wanted: string) {
    var compared := CompareRevisions(current, wanted);
    compared.Some? && compared.value >= 0
  }

  predicate IsRevisionOrEmpty(revision: string) { RevisionNumber(revision).Some? }

  /** Among revisions, the comparison is a total preorder. */
  lemma {:induction false} ComparisonIsTotalPreorder(a: string, b: string, c: string)
    requires IsRevisionOrEmpty(a) && IsRevisionOrEmpty(b) && IsRevisionOrEmpty(c)
    ensures Reaches(a, b) || Reaches(b, a)
    ensures Reaches(a, b) && Reaches(b, c) ==> Reaches(a, c)
    ensures Reaches(a, b) && Reaches(b, a) ==> RevisionNumber(a) == RevisionNumber(b)
  {
  }

  lemma {:induction false} ReachesTransitive(a: string, b: string, c: string)
    requires Reaches(a, b) && Reaches(b, c)
    ensures Reaches(a, c)
  {
    hide ParseRevision;
  }

  /** One of the IDs that all the others that are revisions reach no further than, or
      empty if none is a revision. */
  ghost predicate IsHighest(ids: seq<string>, highest: string) {
    && IsRevisionOrEmpty(highest)
    && (highest == "" <==> forall id | id in ids :: ParseRevision(id) == None)
    && (highest != "" ==> highest in ids)
    && forall id | id in ids && ParseRevision(id).Some? :: Reaches(highest, id)
  }

  /** RevisionOf: the revision a caller has to see before its own write shows. */
  method RevisionOf(ids: seq<string>) returns (highest: string)
    ensures IsHighest(ids, highest)
  {
    highest := "";
    for i := 0 to |ids|
      invariant IsRevisionOrEmpty(highest)
      invariant highest == "" <==> forall id | id in ids[..i] :: ParseRevision(id) == None
      invariant highest != "" ==> highest in ids[..i]
      invariant forall id | id in ids[..i] && ParseRevision(id).Some? :: Reaches(highest, id)
    {
      var compared := CompareRevisions(ids[i], highest);
      assert ids[..i + 1] == ids[..i] + [ids[i]];
      if compared.Some? && compared.value > 0 {
        highest := ids[i];
      }
    }
    assert ids[..|ids|] == ids;
  }
}
