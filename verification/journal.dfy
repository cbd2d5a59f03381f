/** Financial journals in minor units: the input shared by the ledger adapters. */
module Journals {
  import opened Optional

  const U128_MAX: nat := 0xFFFF_FFFF_FFFF_FFFF_FFFF_FFFF_FFFF_FFFF

  datatype Line = Line(accountId: string, debitMinor: nat, creditMinor: nat)

  datatype Journal = Journal(
    tenantId: string, legalEntityId: string, operationId: string, journalId: string,
    reference: string, currency: string, mappingVersion: nat, lines: seq<Line>)

  datatype Rejection = InvalidAccount | InvalidAmount | Unbalanced | ConstraintViolation

  datatype UnknownReason = Unavailable | ResponseLost | NotFound

  datatype RecoveryReason = MappingMismatch | ConflictingReplay

  datatype Outcome =
    | Accepted(operationId: string, mappingVersion: nat, acceptedAt: string, transferCount: nat, transferIds: seq<string>)
    | Rejected(operationId: string, rejection: Rejection)
    | Unknown(operationId: string, unknown: UnknownReason)
    | ManualRecovery(operationId: string, recovery: RecoveryReason)

  /** `toUpperCase` on the ASCII letters that currency codes are made of. */
  function Upper(s: string): (u: string)
    ensures |u| == |s|
  {
    seq(|s|, i requires 0 <= i < |s| => if 'a' <= s[i] <= 'z' then (s[i] as int - 32) as char else s[i])
  }

  function DebitTotal(lines: seq<Line>): nat {
    if lines == [] then 0 else lines[0].debitMinor + DebitTotal(lines[1..])
  }

  function CreditTotal(lines: seq<Line>): nat {
    if lines == [] then 0 else lines[0].creditMinor + CreditTotal(lines[1..])
  }

  /** What a journal debits to one account, over all its lines. */
  function DebitTo(lines: seq<Line>, accountId: string): nat {
    if lines == [] then 0
    else (if lines[0].accountId == accountId then lines[0].debitMinor else 0) + DebitTo(lines[1..], accountId)
  }

  function CreditTo(lines: seq<Line>, accountId: string): nat {
    if lines == [] then 0
    else (if lines[0].accountId == accountId then lines[0].creditMinor else 0) + CreditTo(lines[1..], accountId)
  }

  predicate OneSided(line: Line) {
    (line.debitMinor > 0) != (line.creditMinor > 0)
  }

  /**
   * The verdict both validators must reach, stated on the journal as a whole: at least two lines,
   * every line on exactly one side, totals within 128 bits, and the totals equal.
   */
  function Verdict(lines: seq<Line>): Option<Rejection> {
    if |lines| < 2 then Some(Unbalanced)
    else if (exists i :: 0 <= i < |lines| && !OneSided(lines[i])) || DebitTotal(lines) > U128_MAX || CreditTotal(lines) > U128_MAX then
      Some(InvalidAmount)
    else if DebitTotal(lines) != CreditTotal(lines) then Some(Unbalanced)
    else None
  }

  lemma {:induction false} TotalsSnoc(lines: seq<Line>, last: Line)
    ensures DebitTotal(lines + [last]) == DebitTotal(lines) + last.debitMinor
    ensures CreditTotal(lines + [last]) == CreditTotal(lines) + last.creditMinor
    ensures forall a :: DebitTo(lines + [last], a) == DebitTo(lines, a) + if last.accountId == a then last.debitMinor else 0
    ensures forall a :: CreditTo(lines + [last], a) == CreditTo(lines, a) + if last.accountId == a then last.creditMinor else 0
  {
    if lines != [] {
      TotalsSnoc(lines[1..], last);
      assert (lines + [last])[1..] == lines[1..] + [last];
    }
  }

  /** Totals only grow as lines are added, so an overflowing prefix condemns the whole journal. */
  lemma {:induction false} PrefixTotals(lines: seq<Line>, n: nat)
    requires n <= |lines|
    ensures DebitTotal(lines[..n]) <= DebitTotal(lines) && CreditTotal(lines[..n]) <= CreditTotal(lines)
    decreases |lines| - n
  {
    if n < |lines| {
      PrefixTotals(lines, n + 1);
      assert lines[..n + 1] == lines[..n] + [lines[n]];
      TotalsSnoc(lines[..n], lines[n]);
    } else {
      assert lines[..n] == lines;
    }
  }

  lemma {:induction false} LineWithinTotals(lines: seq<Line>, i: nat)
    requires i < |lines|
    ensures lines[i].debitMinor <= DebitTotal(lines) && lines[i].creditMinor <= CreditTotal(lines)
  {
    if i > 0 {
      LineWithinTotals(lines[1..], i - 1);
    }
  }
}

/** The adapter's and the in-memory ledger's validators, written as their sources write them. */
module JournalValidation {
  import opened Optional
  import opened Journals

  /** The TigerBeetle adapter: bounds, side and running totals are tested one after the other. */
  method AdapterValidation(lines: seq<Line>) returns (verdict: Option<Rejection>)
    ensures verdict == Verdict(lines)
  {
    if |lines| < 2 {
      return Some(Unbalanced);
    }
    var debit, credit := 0, 0;
    for i := 0 to |lines|
      invariant debit == DebitTotal(lines[..i]) <= U128_MAX && credit == CreditTotal(lines[..i]) <= U128_MAX
      invariant forall k :: 0 <= k < i ==> OneSided(lines[k])
    {
      var line := lines[i];
      LineWithinTotals(lines, i);
      assert lines[..i + 1] == lines[..i] + [line];
      TotalsSnoc(lines[..i], line);
      PrefixTotals(lines, i + 1);
      if line.debitMinor > U128_MAX || line.creditMinor > U128_MAX {
        return Some(InvalidAmount);
      }
      if (line.debitMinor > 0) == (line.creditMinor > 0) {
        return Some(InvalidAmount);
      }
      debit := debit + line.debitMinor;
      credit := credit + line.creditMinor;
      if debit > U128_MAX || credit > U128_MAX {
        return Some(InvalidAmount);
      }
    }
    assert lines[..|lines|] == lines;
    return if debit == credit then None else Some(Unbalanced);
  }

  /** The in-memory ledger: bounds and side share one test. */
  method MemoryValidation(lines: seq<Line>) returns (verdict: Option<Rejection>)
    ensures verdict == Verdict(lines)
  {
    if |lines| < 2 {
      return Some(Unbalanced);
    }
    var debit, credit := 0, 0;
    for i := 0 to |lines|
      invariant debit == DebitTotal(lines[..i]) <= U128_MAX && credit == CreditTotal(lines[..i]) <= U128_MAX
      invariant forall k :: 0 <= k < i ==> OneSided(lines[k])
    {
      var line := lines[i];
      LineWithinTotals(lines, i);
      assert lines[..i + 1] == lines[..i] + [line];
      TotalsSnoc(lines[..i], line);
      PrefixTotals(lines, i + 1);
      if line.debitMinor > U128_MAX || line.creditMinor > U128_MAX || (line.debitMinor > 0) == (line.creditMinor > 0) {
        return Some(InvalidAmount);
      }
      debit := debit + line.debitMinor;
      credit := credit + line.creditMinor;
      if debit > U128_MAX || credit > U128_MAX {
        return Some(InvalidAmount);
      }
    }
    assert lines[..|lines|] == lines;
    return if debit == credit then None else Some(Unbalanced);
  }
}
