/**
 * Pairing: a balanced multi-line journal compiled into two-account transfers by walking its
 * debit lines and credit lines together.
 */
module Pairing {
  import opened Optional
  import opened Journals

  datatype Side = Side(accountId: string, remaining: nat)

  datatype TransferPair = TransferPair(debitAccountId: string, creditAccountId: string, amount: nat)

  function DebitSides(lines: seq<Line>): (sides: seq<Side>)
    ensures Positive(sides)
  {
    if lines == [] then []
    else if lines[0].debitMinor > 0 then [Side(lines[0].accountId, lines[0].debitMinor)] + DebitSides(lines[1..])
    else DebitSides(lines[1..])
  }

  function CreditSides(lines: seq<Line>): (sides: seq<Side>)
    ensures Positive(sides)
  {
    if lines == [] then []
    else if lines[0].creditMinor > 0 then [Side(lines[0].accountId, lines[0].creditMinor)] + CreditSides(lines[1..])
    else CreditSides(lines[1..])
  }

  predicate Positive(sides: seq<Side>) {
    forall i :: 0 <= i < |sides| ==> sides[i].remaining > 0
  }

  function Min(a: nat, b: nat): nat {
    if a < b then a else b
  }

  /** The sides left after `amount` is taken from the first one. */
  function Lower(sides: seq<Side>, amount: nat): seq<Side>
    requires sides != [] && amount <= sides[0].remaining
  {
    if sides[0].remaining == amount then sides[1..]
    else [Side(sides[0].accountId, sides[0].remaining - amount)] + sides[1..]
  }

  function Pairs(debits: seq<Side>, credits: seq<Side>): seq<TransferPair>
    decreases |debits| + |credits|
  {
    if debits == [] || credits == [] then [] else
      var amount := Min(debits[0].remaining, credits[0].remaining);
      [TransferPair(debits[0].accountId, credits[0].accountId, amount)] + Pairs(Lower(debits, amount), Lower(credits, amount))
  }

  function JournalPairs(lines: seq<Line>): seq<TransferPair> {
    Pairs(DebitSides(lines), CreditSides(lines))
  }

  /** The two-pointer loop; the remaining amounts of both sides are lowered in place. */
  method PairLines(lines: seq<Line>) returns (pairs: seq<TransferPair>)
    ensures pairs == JournalPairs(lines)
  {
    hide Pairs, Lower;
    var debits, credits := DebitSides(lines), CreditSides(lines);
    var debitRemaining := DebitAmounts(lines);
    var creditRemaining := CreditAmounts(lines);
    ghost var ds, cs, rest := debits, credits, JournalPairs(lines);
    var debitIndex, creditIndex := 0, 0;
    pairs := [];
    while debitIndex < |debits| && creditIndex < |credits|
      invariant debitIndex <= |debits| && creditIndex <= |credits|
      invariant Shows(debitRemaining, debits, ds) && Shows(creditRemaining, credits, cs)
      invariant rest == Pairs(ds[debitIndex..], cs[creditIndex..])
      invariant pairs + rest == JournalPairs(lines)
      decreases |debits| - debitIndex + |credits| - creditIndex
    {
      var amount := if debitRemaining[debitIndex] < creditRemaining[creditIndex]
      then debitRemaining[debitIndex] else creditRemaining[creditIndex];
      PairsStep(ds, debitIndex, cs, creditIndex);
      assert pairs + rest == (pairs + [rest[0]]) + rest[1..];
      rest := rest[1..];
      pairs := pairs + [TransferPair(debits[debitIndex].accountId, credits[creditIndex].accountId, amount)];
      debitRemaining[debitIndex] := debitRemaining[debitIndex] - amount;
      creditRemaining[creditIndex] := creditRemaining[creditIndex] - amount;
      ds, cs := LoweredAt(ds, debitIndex, amount), LoweredAt(cs, creditIndex, amount);
      debitIndex := if debitRemaining[debitIndex] == 0 then debitIndex + 1 else debitIndex;
      creditIndex := if creditRemaining[creditIndex] == 0 then creditIndex + 1 else creditIndex;
    }
    PairsDone(ds[debitIndex..], cs[creditIndex..]);
  }

  /** The array holds the remaining amounts of `now`, whose accounts are still those of `sides`. */
  ghost predicate Shows(remaining: array<nat>, sides: seq<Side>, now: seq<Side>)
    reads remaining
  {
    && remaining.Length == |sides| == |now|
    && forall k :: 0 <= k < |now| ==> now[k] == Side(sides[k].accountId, remaining[k])
  }

  /** The sides after the amount at index `i` has been lowered in place. */
  ghost function LoweredAt(sides: seq<Side>, i: nat, amount: nat): seq<Side>
    requires i < |sides| && amount <= sides[i].remaining
  {
    sides[i := sides[i].(remaining := sides[i].remaining - amount)]
  }

  lemma LowerInPlace(sides: seq<Side>, i: nat, amount: nat)
    requires i < |sides| && amount <= sides[i].remaining
    ensures Lower(sides[i..], amount) == LoweredAt(sides, i, amount)[if sides[i].remaining == amount then i + 1 else i..]
  {
  }

  lemma PairsDone(debits: seq<Side>, credits: seq<Side>)
    requires debits == [] || credits == []
    ensures Pairs(debits, credits) == []
  {
  }

  lemma PairsUnfold(debits: seq<Side>, credits: seq<Side>)
    requires debits != [] && credits != []
    ensures var amount := Min(debits[0].remaining, credits[0].remaining);
            Pairs(debits, credits) == [TransferPair(debits[0].accountId, credits[0].accountId, amount)]
                                      + Pairs(Lower(debits, amount), Lower(credits, amount))
  {
  }

  /** One turn of the loop, on sequences. */
  lemma PairsStep(ds: seq<Side>, i: nat, cs: seq<Side>, k: nat)
    requires i < |ds| && k < |cs|
    ensures var amount := Min(ds[i].remaining, cs[k].remaining);
            Pairs(ds[i..], cs[k..]) ==
            [TransferPair(ds[i].accountId, cs[k].accountId, amount)]
            + Pairs(LoweredAt(ds, i, amount)[if ds[i].remaining == amount then i + 1 else i..],
                    LoweredAt(cs, k, amount)[if cs[k].remaining == amount then k + 1 else k..])
  {
    hide Pairs, Lower;
    var amount := Min(ds[i].remaining, cs[k].remaining);
    PairsUnfold(ds[i..], cs[k..]);
    LowerInPlace(ds, i, amount);
    LowerInPlace(cs, k, amount);
  }

  /** The in-memory ledger runs the same walk on bare amounts and only counts the transfers. */
  method CountTransfers(lines: seq<Line>) returns (transferCount: nat)
    ensures transferCount == |JournalPairs(lines)|
  {
    hide Pairs, Lower;
    ghost var debitSides, creditSides := DebitSides(lines), CreditSides(lines);
    var debits := DebitAmounts(lines);
    var credits := CreditAmounts(lines);
    ghost var ds, cs := debitSides, creditSides;
    var debitIndex, creditIndex := 0, 0;
    transferCount := 0;
    while debitIndex < debits.Length && creditIndex < credits.Length
      invariant debitIndex <= debits.Length && creditIndex <= credits.Length
      invariant Shows(debits, debitSides, ds) && Shows(credits, creditSides, cs)
      invariant transferCount + |Pairs(ds[debitIndex..], cs[creditIndex..])| == |JournalPairs(lines)|
      decreases debits.Length - debitIndex + credits.Length - creditIndex
    {
      var amount := if debits[debitIndex] < credits[creditIndex] then debits[debitIndex] else credits[creditIndex];
      PairsStep(ds, debitIndex, cs, creditIndex);
      debits[debitIndex] := debits[debitIndex] - amount;
      credits[creditIndex] := credits[creditIndex] - amount;
      ds, cs := LoweredAt(ds, debitIndex, amount), LoweredAt(cs, creditIndex, amount);
      debitIndex := if debits[debitIndex] == 0 then debitIndex + 1 else debitIndex;
      creditIndex := if credits[creditIndex] == 0 then creditIndex + 1 else creditIndex;
      transferCount := transferCount + 1;
    }
    PairsDone(ds[debitIndex..], cs[creditIndex..]);
  }

  method DebitAmounts(lines: seq<Line>) returns (amounts: array<nat>)
    ensures fresh(amounts) && Shows(amounts, DebitSides(lines), DebitSides(lines))
  {
    var sides := DebitSides(lines);
    amounts := new nat[|sides|](i requires 0 <= i < |sides| => sides[i].remaining);
  }

  method CreditAmounts(lines: seq<Line>) returns (amounts: array<nat>)
    ensures fresh(amounts) && Shows(amounts, CreditSides(lines), CreditSides(lines))
  {
    var sides := CreditSides(lines);
    amounts := new nat[|sides|](i requires 0 <= i < |sides| => sides[i].remaining);
  }

  // ---- What the pairs mean ------------------------------------------------

  function Total(sides: seq<Side>): nat {
    if sides == [] then 0 else sides[0].remaining + Total(sides[1..])
  }

  function TotalFor(sides: seq<Side>, accountId: string): nat {
    if sides == [] then 0
    else (if sides[0].accountId == accountId then sides[0].remaining else 0) + TotalFor(sides[1..], accountId)
  }

  function PairTotal(pairs: seq<TransferPair>): nat {
    if pairs == [] then 0 else pairs[0].amount + PairTotal(pairs[1..])
  }

  function PairDebits(pairs: seq<TransferPair>, accountId: string): nat {
    if pairs == [] then 0
    else (if pairs[0].debitAccountId == accountId then pairs[0].amount else 0) + PairDebits(pairs[1..], accountId)
  }

  function PairCredits(pairs: seq<TransferPair>, accountId: string): nat {
    if pairs == [] then 0
    else (if pairs[0].creditAccountId == accountId then pairs[0].amount else 0) + PairCredits(pairs[1..], accountId)
  }

  lemma {:induction false} SidesSum(lines: seq<Line>, accountId: string)
    ensures Total(DebitSides(lines)) == DebitTotal(lines) && Total(CreditSides(lines)) == CreditTotal(lines)
    ensures TotalFor(DebitSides(lines), accountId) == DebitTo(lines, accountId)
    ensures TotalFor(CreditSides(lines), accountId) == CreditTo(lines, accountId)
  {
    if lines != [] {
      SidesSum(lines[1..], accountId);
      assert lines[0].debitMinor > 0 ==> DebitSides(lines)[1..] == DebitSides(lines[1..]);
      assert lines[0].creditMinor > 0 ==> CreditSides(lines)[1..] == CreditSides(lines[1..]);
    }
  }

  lemma LowerTotals(sides: seq<Side>, amount: nat, accountId: string)
    requires sides != [] && amount <= sides[0].remaining
    ensures Total(Lower(sides, amount)) == Total(sides) - amount
    ensures TotalFor(Lower(sides, amount), accountId) ==
            TotalFor(sides, accountId) - if sides[0].accountId == accountId then amount else 0
    ensures Positive(sides) ==> Positive(Lower(sides, amount))
  {
    if sides[0].remaining != amount {
      assert Lower(sides, amount)[1..] == sides[1..];
    }
  }

  /** For arbitrary lines the walk moves the smaller of the two totals. */
  lemma {:induction false} PairsTotal(debits: seq<Side>, credits: seq<Side>)
    ensures PairTotal(Pairs(debits, credits)) == Min(Total(debits), Total(credits))
    decreases |debits| + |credits|
  {
    if debits != [] && credits != [] {
      var amount := Min(debits[0].remaining, credits[0].remaining);
      LowerTotals(debits, amount, "");
      LowerTotals(credits, amount, "");
      PairsTotal(Lower(debits, amount), Lower(credits, amount));
      assert Pairs(debits, credits)[1..] == Pairs(Lower(debits, amount), Lower(credits, amount));
    }
  }

  lemma PositiveTotal(sides: seq<Side>)
    requires Positive(sides) && Total(sides) == 0
    ensures sides == []
  {
  }

  /** Meaning preservation on sides with equal totals, account by account. */
  lemma {:induction false} PairsPreserve(debits: seq<Side>, credits: seq<Side>, accountId: string)
    requires Positive(debits) && Positive(credits) && Total(debits) == Total(credits)
    ensures PairDebits(Pairs(debits, credits), accountId) == TotalFor(debits, accountId)
    ensures PairCredits(Pairs(debits, credits), accountId) == TotalFor(credits, accountId)
    decreases |debits| + |credits|
  {
    if debits == [] {
      PositiveTotal(credits);
    } else if credits == [] {
      PositiveTotal(debits);
    } else {
      var amount := Min(debits[0].remaining, credits[0].remaining);
      LowerTotals(debits, amount, accountId);
      LowerTotals(credits, amount, accountId);
      PairsPreserve(Lower(debits, amount), Lower(credits, amount), accountId);
      assert Pairs(debits, credits)[1..] == Pairs(Lower(debits, amount), Lower(credits, amount));
    }
  }

  /** Every transfer moves a positive amount no larger than the lines it is cut from. */
  lemma {:induction false} PairAmounts(debits: seq<Side>, credits: seq<Side>, i: nat)
    requires Positive(debits) && Positive(credits) && i < |Pairs(debits, credits)|
    ensures 1 <= Pairs(debits, credits)[i].amount <= Min(Total(debits), Total(credits))
    ensures exists d :: 0 <= d < |debits| && debits[d].accountId == Pairs(debits, credits)[i].debitAccountId
    ensures exists c :: 0 <= c < |credits| && credits[c].accountId == Pairs(debits, credits)[i].creditAccountId
    decreases i
  {
    hide Pairs, Lower, Total;
    assert debits != [] && credits != [] by {
      if debits == [] || credits == [] {
        PairsDone(debits, credits);
      }
    }
    var amount := Min(debits[0].remaining, credits[0].remaining);
    LowerTotals(debits, amount, "");
    LowerTotals(credits, amount, "");
    PairsUnfold(debits, credits);
    if i > 0 {
      PairAmounts(Lower(debits, amount), Lower(credits, amount), i - 1);
      LowerAccounts(debits, amount);
      LowerAccounts(credits, amount);
    }
  }

  lemma LowerShortens(debits: seq<Side>, credits: seq<Side>)
    requires debits != [] && credits != []
    ensures var amount := Min(debits[0].remaining, credits[0].remaining);
            |Lower(debits, amount)| + |Lower(credits, amount)| < |debits| + |credits|
  {
  }

  lemma LowerAccounts(sides: seq<Side>, amount: nat)
    requires sides != [] && amount <= sides[0].remaining
    ensures forall k :: 0 <= k < |Lower(sides, amount)| ==>
              exists d :: 0 <= d < |sides| && sides[d].accountId == Lower(sides, amount)[k].accountId
  {
    var rest := Lower(sides, amount);
    forall k | 0 <= k < |rest| ensures exists d :: 0 <= d < |sides| && sides[d].accountId == rest[k].accountId {
      assert rest[k].accountId == sides[if |rest| == |sides| then k else k + 1].accountId;
    }
  }

  /** At most one transfer fewer than there are lines. */
  lemma {:induction false} PairCount(debits: seq<Side>, credits: seq<Side>)
    requires debits != [] && credits != []
    ensures 1 <= |Pairs(debits, credits)| <= |debits| + |credits| - 1
    decreases |debits| + |credits|
  {
    var amount := Min(debits[0].remaining, credits[0].remaining);
    var ds, cs := Lower(debits, amount), Lower(credits, amount);
    if ds != [] && cs != [] {
      PairCount(ds, cs);
    }
  }

  // ---- Where the pairs cut ------------------------------------------------

  /** The running sums of the sides, starting from `base`. */
  function Cuts(sides: seq<Side>, base: nat): seq<nat> {
    if sides == [] then [] else [base + sides[0].remaining] + Cuts(sides[1..], base + sides[0].remaining)
  }

  function PairCuts(pairs: seq<TransferPair>, base: nat): seq<nat> {
    if pairs == [] then [] else [base + pairs[0].amount] + PairCuts(pairs[1..], base + pairs[0].amount)
  }

  predicate StrictlyIncreasing(xs: seq<nat>) {
    forall i, j :: 0 <= i < j < |xs| ==> xs[i] < xs[j]
  }

  lemma {:induction false} CutsBounds(sides: seq<Side>, base: nat, x: nat)
    requires Positive(sides)
    ensures x in Cuts(sides, base) ==> base < x <= base + Total(sides)
    ensures sides != [] && x == base + Total(sides) ==> x in Cuts(sides, base)
  {
    if sides != [] {
      assert sides == [sides[0]] + sides[1..];
      CutsCons(sides[0], sides[1..], base, x);
      CutsBounds(sides[1..], base + sides[0].remaining, x);
      assert sides[1..] == [] ==> Total(sides) == sides[0].remaining;
    }
  }

  lemma LowerCuts(sides: seq<Side>, amount: nat, base: nat, x: nat)
    requires sides != [] && Positive(sides) && 0 < amount <= sides[0].remaining
    ensures x > base + amount ==> (x in Cuts(sides, base) <==> x in Cuts(Lower(sides, amount), base + amount))
    ensures x <= base + amount ==> (x in Cuts(sides, base) <==> x == base + amount && amount == sides[0].remaining)
    ensures x in Cuts(Lower(sides, amount), base + amount) ==> x > base + amount
  {
    hide Cuts, Total;
    var first, tail := base + sides[0].remaining, sides[1..];
    assert x in Cuts(tail, first) ==> first < x by { CutsBounds(tail, first, x); }
    CutsCons(sides[0], tail, base, x);
    assert sides == [sides[0]] + tail;
    if sides[0].remaining != amount {
      CutsCons(Side(sides[0].accountId, sides[0].remaining - amount), tail, base + amount, x);
    }
  }

  lemma CutsCons(side: Side, tail: seq<Side>, base: nat, x: nat)
    ensures x in Cuts([side] + tail, base) <==> x == base + side.remaining || x in Cuts(tail, base + side.remaining)
  {
    assert ([side] + tail)[1..] == tail;
  }

  lemma PairCutsCons(pair: TransferPair, rest: seq<TransferPair>, base: nat, x: nat)
    ensures x in PairCuts([pair] + rest, base) <==> x == base + pair.amount || x in PairCuts(rest, base + pair.amount)
  {
    assert ([pair] + rest)[1..] == rest;
  }

  /**
   * A number is a running sum of the transfers exactly when it is a running sum of the debits or
   * of the credits, and within the smaller total.
   */
  lemma {:induction false} PairsCutAt(debits: seq<Side>, credits: seq<Side>, base: nat, x: nat)
    requires Positive(debits) && Positive(credits)
    ensures x in PairCuts(Pairs(debits, credits), base) <==>
            (x in Cuts(debits, base) || x in Cuts(credits, base)) && x <= base + Min(Total(debits), Total(credits))
    decreases |debits| + |credits|
  {
    if debits == [] || credits == [] {
      CutsBounds(debits, base, x);
      CutsBounds(credits, base, x);
    } else {
      hide Pairs, Lower, Cuts, PairCuts, Total;
      var amount := Min(debits[0].remaining, credits[0].remaining);
      var ds, cs := Lower(debits, amount), Lower(credits, amount);
      LowerTotals(debits, amount, "");
      LowerTotals(credits, amount, "");
      assert |ds| + |cs| < |debits| + |credits| by { LowerShortens(debits, credits); }
      PairsUnfold(debits, credits);
      PairsCutAt(ds, cs, base + amount, x);
      CutStep(debits, credits, base, x, Pairs(ds, cs));
    }
  }

  lemma CutStep(debits: seq<Side>, credits: seq<Side>, base: nat, x: nat, rest: seq<TransferPair>)
    requires debits != [] && credits != [] && Positive(debits) && Positive(credits)
    requires var amount := Min(debits[0].remaining, credits[0].remaining);
             var ds, cs := Lower(debits, amount), Lower(credits, amount);
             x in PairCuts(rest, base + amount) <==>
             (x in Cuts(ds, base + amount) || x in Cuts(cs, base + amount))
             && x <= base + amount + Min(Total(ds), Total(cs))
    ensures var amount := Min(debits[0].remaining, credits[0].remaining);
            x in PairCuts([TransferPair(debits[0].accountId, credits[0].accountId, amount)] + rest, base) <==>
            (x in Cuts(debits, base) || x in Cuts(credits, base)) && x <= base + Min(Total(debits), Total(credits))
  {
    hide Lower, Cuts, PairCuts, Total;
    var amount := Min(debits[0].remaining, credits[0].remaining);
    LowerTotals(debits, amount, "");
    LowerTotals(credits, amount, "");
    LowerCuts(debits, amount, base, x);
    LowerCuts(credits, amount, base, x);
    PairCutsCons(TransferPair(debits[0].accountId, credits[0].accountId, amount), rest, base, x);
  }

  lemma {:induction false} PairCutsIncrease(pairs: seq<TransferPair>, base: nat)
    requires forall i :: 0 <= i < |pairs| ==> pairs[i].amount >= 1
    ensures StrictlyIncreasing(PairCuts(pairs, base))
    ensures forall i :: 0 <= i < |PairCuts(pairs, base)| ==> PairCuts(pairs, base)[i] > base
  {
    if pairs != [] {
      PairCutsIncrease(pairs[1..], base + pairs[0].amount);
    }
  }

  // ---- The statements for validated journals ------------------------------

  lemma SidesNonempty(lines: seq<Line>)
    ensures DebitTotal(lines) > 0 ==> DebitSides(lines) != []
    ensures CreditTotal(lines) > 0 ==> CreditSides(lines) != []
  {
    SidesSum(lines, "");
  }

  lemma ValidTotals(lines: seq<Line>)
    requires Verdict(lines) == None
    ensures 0 < DebitTotal(lines) == CreditTotal(lines) <= U128_MAX
  {
    LineWithinTotals(lines, 0);
    assert OneSided(lines[0]);
  }

  lemma {:induction false} SideCount(lines: seq<Line>)
    requires forall i :: 0 <= i < |lines| ==> OneSided(lines[i])
    ensures |DebitSides(lines)| + |CreditSides(lines)| == |lines|
  {
    if lines != [] {
      SideCount(lines[1..]);
      assert OneSided(lines[0]);
    }
  }

  /** A validated journal and its transfers debit and credit every account by the same amounts. */
  lemma PairingPreservesMeaning(lines: seq<Line>, accountId: string)
    requires Verdict(lines) == None
    ensures PairDebits(JournalPairs(lines), accountId) == DebitTo(lines, accountId)
    ensures PairCredits(JournalPairs(lines), accountId) == CreditTo(lines, accountId)
    ensures PairTotal(JournalPairs(lines)) == DebitTotal(lines) == CreditTotal(lines)
  {
    SidesSum(lines, accountId);
    PairsPreserve(DebitSides(lines), CreditSides(lines), accountId);
    PairsTotal(DebitSides(lines), CreditSides(lines));
  }

  /** Each transfer fits 128 bits, there is at least one, and at most one fewer than lines. */
  lemma PairingIsBounded(lines: seq<Line>)
    requires Verdict(lines) == None
    ensures 1 <= |JournalPairs(lines)| <= |lines| - 1
    ensures forall i :: 0 <= i < |JournalPairs(lines)| ==> 1 <= JournalPairs(lines)[i].amount <= U128_MAX
  {
    SidesSum(lines, "");
    ValidTotals(lines);
    SidesNonempty(lines);
    SideCount(lines);
    PairCount(DebitSides(lines), CreditSides(lines));
    forall i | 0 <= i < |JournalPairs(lines)| ensures 1 <= JournalPairs(lines)[i].amount <= U128_MAX {
      PairAmounts(DebitSides(lines), CreditSides(lines), i);
    }
  }

  /** The transfers cut the journal exactly where a debit line or a credit line ends. */
  lemma PairingCuts(lines: seq<Line>)
    requires Verdict(lines) == None
    ensures StrictlyIncreasing(PairCuts(JournalPairs(lines), 0))
    ensures forall x :: x in PairCuts(JournalPairs(lines), 0) <==>
              x in Cuts(DebitSides(lines), 0) || x in Cuts(CreditSides(lines), 0)
  {
    SidesSum(lines, "");
    PairingIsBounded(lines);
    PairCutsIncrease(JournalPairs(lines), 0);
    forall x
      ensures x in PairCuts(JournalPairs(lines), 0) <==>
              x in Cuts(DebitSides(lines), 0) || x in Cuts(CreditSides(lines), 0)
    {
      if x >= 0 {
        CutsBounds(DebitSides(lines), 0, x);
        CutsBounds(CreditSides(lines), 0, x);
        PairsCutAt(DebitSides(lines), CreditSides(lines), 0, x);
      }
    }
  }

  // ---- Accounts on both sides ---------------------------------------------

  /** The in-memory ledger's test: some account is both debited and credited. */
  predicate TwoSidedAccount(lines: seq<Line>) {
    exists i, k :: 0 <= i < |lines| && 0 <= k < |lines| && lines[i].debitMinor > 0
                   && lines[k].accountId == lines[i].accountId && lines[k].creditMinor > 0
  }

  /** The adapter's test: some transfer debits and credits the same account. */
  predicate SelfTransfer(pairs: seq<TransferPair>) {
    exists i :: 0 <= i < |pairs| && pairs[i].debitAccountId == pairs[i].creditAccountId
  }

  lemma {:induction false} DebitOrigin(lines: seq<Line>, d: nat) returns (i: nat)
    requires d < |DebitSides(lines)|
    ensures i < |lines| && lines[i].debitMinor > 0 && lines[i].accountId == DebitSides(lines)[d].accountId
  {
    if lines[0].debitMinor > 0 && d == 0 {
      i := 0;
    } else {
      i := DebitOrigin(lines[1..], if lines[0].debitMinor > 0 then d - 1 else d);
      i := i + 1;
    }
  }

  lemma {:induction false} CreditOrigin(lines: seq<Line>, c: nat) returns (i: nat)
    requires c < |CreditSides(lines)|
    ensures i < |lines| && lines[i].creditMinor > 0 && lines[i].accountId == CreditSides(lines)[c].accountId
  {
    if lines[0].creditMinor > 0 && c == 0 {
      i := 0;
    } else {
      i := CreditOrigin(lines[1..], if lines[0].creditMinor > 0 then c - 1 else c);
      i := i + 1;
    }
  }

  /** A journal the in-memory ledger lets through never makes a self-transfer in the adapter. */
  lemma OneSidedAccountsPair(lines: seq<Line>)
    requires !TwoSidedAccount(lines)
    ensures !SelfTransfer(JournalPairs(lines))
  {
    var pairs := JournalPairs(lines);
    forall i | 0 <= i < |pairs| ensures pairs[i].debitAccountId != pairs[i].creditAccountId {
      PairAmounts(DebitSides(lines), CreditSides(lines), i);
      var d :| 0 <= d < |DebitSides(lines)| && DebitSides(lines)[d].accountId == pairs[i].debitAccountId;
      var c :| 0 <= c < |CreditSides(lines)| && CreditSides(lines)[c].accountId == pairs[i].creditAccountId;
      var debited := DebitOrigin(lines, d);
      var credited := CreditOrigin(lines, c);
    }
  }

  /** The in-memory test is strictly stronger: here two offsetting transfers pass the adapter only. */
  lemma TwoSidedAccountMayPair()
    ensures exists lines :: Verdict(lines) == None && TwoSidedAccount(lines) && !SelfTransfer(JournalPairs(lines))
  {
    var lines := [Line("a", 5, 0), Line("b", 0, 5), Line("b", 5, 0), Line("a", 0, 5)];
    var ds, cs := [Side("a", 5), Side("b", 5)], [Side("b", 5), Side("a", 5)];
    assert lines[1..][1..][1..][1..] == [];
    assert DebitSides(lines) == ds && CreditSides(lines) == cs;
    assert Pairs(ds[1..], cs[1..]) == [TransferPair("b", "a", 5)];
    assert JournalPairs(lines) == [TransferPair("a", "b", 5)] + Pairs(ds[1..], cs[1..]);
    assert DebitTotal(lines) == 10 == CreditTotal(lines);
    assert lines[0].accountId == lines[3].accountId;
  }

  // ---- Exactly when a transfer stays on one account ------------------------

  /** The running sum of the sides before place `i`. */
  function Before(sides: seq<Side>, i: nat): nat
    requires i <= |sides|
  {
    if i == 0 then 0 else sides[0].remaining + Before(sides[1..], i - 1)
  }

  /** The stretches of money that debit `d` and credit `c` cover have a part in common. */
  predicate Overlap(debits: seq<Side>, credits: seq<Side>, d: nat, c: nat)
    requires d < |debits| && c < |credits|
  {
    Before(debits, d) < Before(credits, c + 1) && Before(credits, c) < Before(debits, d + 1)
  }

  /** A debit and a credit on the given accounts overlap. */
  predicate Meet(debits: seq<Side>, credits: seq<Side>, debited: string, credited: string) {
    exists d, c :: 0 <= d < |debits| && 0 <= c < |credits| && Overlap(debits, credits, d, c)
                   && debits[d].accountId == debited && credits[c].accountId == credited
  }

  predicate Transfers(pairs: seq<TransferPair>, debited: string, credited: string) {
    exists i :: 0 <= i < |pairs| && pairs[i].debitAccountId == debited && pairs[i].creditAccountId == credited
  }

  lemma {:induction false} BeforeGrows(sides: seq<Side>, i: nat, j: nat)
    requires Positive(sides) && i < j <= |sides|
    ensures Before(sides, i) < Before(sides, j)
    decreases j
  {
    if i > 0 {
      BeforeGrows(sides[1..], i - 1, j - 1);
    } else if j > 1 {
      BeforeGrows(sides[1..], 0, j - 1);
    }
  }

  lemma BeforeOne(sides: seq<Side>)
    requires sides != []
    ensures Before(sides, 1) == sides[0].remaining
  {
    assert Before(sides[1..], 0) == 0;
  }

  /** How many sides are used up when `amount` is taken from the first. */
  function UsedUp(sides: seq<Side>, amount: nat): nat
    requires sides != []
  {
    if sides[0].remaining == amount then 1 else 0
  }

  lemma LowerBefore(sides: seq<Side>, amount: nat, i: nat)
    requires sides != [] && Positive(sides) && 0 < amount <= sides[0].remaining && 0 < i <= |Lower(sides, amount)|
    ensures i + UsedUp(sides, amount) <= |sides|
    ensures Before(Lower(sides, amount), i) == Before(sides, i + UsedUp(sides, amount)) - amount
  {
    if sides[0].remaining != amount {
      assert Lower(sides, amount)[1..] == sides[1..];
    }
  }

  /** After one transfer the remaining sides overlap exactly where they did before. */
  lemma OverlapStep(debits: seq<Side>, credits: seq<Side>, d: nat, c: nat)
    requires debits != [] && credits != [] && Positive(debits) && Positive(credits)
    requires var amount := Min(debits[0].remaining, credits[0].remaining);
             d < |Lower(debits, amount)| && c < |Lower(credits, amount)|
    ensures var amount := Min(debits[0].remaining, credits[0].remaining);
            var e, f := d + UsedUp(debits, amount), c + UsedUp(credits, amount);
            && e < |debits| && f < |credits|
            && (Overlap(Lower(debits, amount), Lower(credits, amount), d, c) <==> Overlap(debits, credits, e, f))
            && debits[e].accountId == Lower(debits, amount)[d].accountId
            && credits[f].accountId == Lower(credits, amount)[c].accountId
  {
    var amount := Min(debits[0].remaining, credits[0].remaining);
    LoweredPlace(debits, amount, d);
    LoweredPlace(credits, amount, c);
    hide Lower, Before, UsedUp, Positive;
  }

  /** A side left after the first transfer covers what it covered before, less what was taken. */
  lemma LoweredPlace(sides: seq<Side>, amount: nat, d: nat)
    requires sides != [] && Positive(sides) && 0 < amount <= sides[0].remaining && d < |Lower(sides, amount)|
    ensures var rest, e := Lower(sides, amount), d + UsedUp(sides, amount);
            && e < |sides| && sides[e].accountId == rest[d].accountId
            && Before(rest, d + 1) == Before(sides, e + 1) - amount && Before(rest, d + 1) > 0
            && (Before(sides, e) >= amount ==> Before(rest, d) == Before(sides, e) - amount)
            && (Before(sides, e) < amount ==> Before(rest, d) == 0)
  {
    LowerTotals(sides, amount, "");
    LowerBefore(sides, amount, d + 1);
    BeforeGrows(Lower(sides, amount), 0, d + 1);
    if d > 0 {
      LowerBefore(sides, amount, d);
    } else {
      UsedUpBefore(sides, amount);
    }
    hide Before;
  }

  lemma UsedUpBefore(sides: seq<Side>, amount: nat)
    requires sides != [] && amount <= sides[0].remaining
    ensures UsedUp(sides, amount) <= |sides| && Before(sides, UsedUp(sides, amount)) <= amount
    ensures Before(Lower(sides, amount), 0) == 0
  {
  }

  /** An overlap other than of the two first sides survives the first transfer. */
  lemma OverlapSurvives(debits: seq<Side>, credits: seq<Side>, d: nat, c: nat)
    requires d < |debits| && c < |credits| && Positive(debits) && Positive(credits) && Overlap(debits, credits, d, c)
    requires d > 0 || c > 0
    ensures var amount := Min(debits[0].remaining, credits[0].remaining);
            && UsedUp(debits, amount) <= d && d - UsedUp(debits, amount) < |Lower(debits, amount)|
            && UsedUp(credits, amount) <= c && c - UsedUp(credits, amount) < |Lower(credits, amount)|
  {
    BeforeOne(debits);
    BeforeOne(credits);
    if d == 0 && c > 1 {
      BeforeGrows(credits, 1, c);
    }
    if c == 0 && d > 1 {
      BeforeGrows(debits, 1, d);
    }
  }

  /** A transfer between two accounts occurs exactly when a debit of the one and a credit of the other overlap. */
  lemma {:induction false} TransfersExactly(debits: seq<Side>, credits: seq<Side>, debited: string, credited: string)
    requires Positive(debits) && Positive(credits)
    ensures Transfers(Pairs(debits, credits), debited, credited) <==> Meet(debits, credits, debited, credited)
    decreases |debits| + |credits|
  {
    hide Pairs, Lower, Overlap;
    if debits == [] || credits == [] {
      PairsDone(debits, credits);
    } else {
      var amount := Min(debits[0].remaining, credits[0].remaining);
      LowerTotals(debits, amount, "");
      LowerTotals(credits, amount, "");
      LowerShortens(debits, credits);
      PairsUnfold(debits, credits);
      TransfersExactly(Lower(debits, amount), Lower(credits, amount), debited, credited);
      MeetStep(debits, credits, debited, credited);
      TransfersCons(TransferPair(debits[0].accountId, credits[0].accountId, amount),
                    Pairs(Lower(debits, amount), Lower(credits, amount)), debited, credited);
    }
  }

  lemma TransfersCons(pair: TransferPair, rest: seq<TransferPair>, debited: string, credited: string)
    ensures Transfers([pair] + rest, debited, credited) <==>
            (pair.debitAccountId == debited && pair.creditAccountId == credited) || Transfers(rest, debited, credited)
  {
    var pairs := [pair] + rest;
    assert pairs[0] == pair && forall i :: 0 <= i < |rest| ==> pairs[i + 1] == rest[i];
  }

  lemma MeetStep(debits: seq<Side>, credits: seq<Side>, debited: string, credited: string)
    requires debits != [] && credits != [] && Positive(debits) && Positive(credits)
    ensures var amount := Min(debits[0].remaining, credits[0].remaining);
            Meet(debits, credits, debited, credited) <==>
            (debits[0].accountId == debited && credits[0].accountId == credited)
            || Meet(Lower(debits, amount), Lower(credits, amount), debited, credited)
  {
    hide Lower, UsedUp;
    var amount := Min(debits[0].remaining, credits[0].remaining);
    var ds, cs := Lower(debits, amount), Lower(credits, amount);
    assert Overlap(debits, credits, 0, 0);
    hide Overlap;
    if d, c :| 0 <= d < |debits| && 0 <= c < |credits| && Overlap(debits, credits, d, c)
               && debits[d].accountId == debited && credits[c].accountId == credited {
      if d > 0 || c > 0 {
        OverlapSurvives(debits, credits, d, c);
        OverlapStep(debits, credits, d - UsedUp(debits, amount), c - UsedUp(credits, amount));
      }
    }
    if d, c :| 0 <= d < |ds| && 0 <= c < |cs| && Overlap(ds, cs, d, c) && ds[d].accountId == debited && cs[c].accountId == credited {
      OverlapStep(debits, credits, d, c);
    }
  }

  /** Some account's debit and credit overlap. */
  predicate SelfOverlap(debits: seq<Side>, credits: seq<Side>) {
    exists d, c :: 0 <= d < |debits| && 0 <= c < |credits| && debits[d].accountId == credits[c].accountId
                   && Overlap(debits, credits, d, c)
  }

  lemma SelfPairsExactly(debits: seq<Side>, credits: seq<Side>)
    requires Positive(debits) && Positive(credits)
    ensures SelfTransfer(Pairs(debits, credits)) <==> SelfOverlap(debits, credits)
  {
    hide Pairs, Overlap;
    var pairs := Pairs(debits, credits);
    if SelfTransfer(pairs) {
      var i :| 0 <= i < |pairs| && pairs[i].debitAccountId == pairs[i].creditAccountId;
      TransfersExactly(debits, credits, pairs[i].debitAccountId, pairs[i].debitAccountId);
    }
    if SelfOverlap(debits, credits) {
      var d, c :| 0 <= d < |debits| && 0 <= c < |credits| && debits[d].accountId == credits[c].accountId && Overlap(debits, credits, d, c);
      TransfersExactly(debits, credits, debits[d].accountId, debits[d].accountId);
    }
  }

  /**
   * Exactly when the adapter refuses a journal for a transfer from an account to itself: some
   * account's debit and credit overlap in the order of the lines.
   */
  lemma SelfTransferExactly(lines: seq<Line>)
    ensures SelfTransfer(JournalPairs(lines)) <==> SelfOverlap(DebitSides(lines), CreditSides(lines))
  {
    SelfPairsExactly(DebitSides(lines), CreditSides(lines));
  }

  /** The in-memory test asks for a debit and a credit of one account, whether they overlap or not. */
  lemma TwoSidedExactly(lines: seq<Line>)
    ensures TwoSidedAccount(lines) <==>
            exists d, c :: 0 <= d < |DebitSides(lines)| && 0 <= c < |CreditSides(lines)|
                           && DebitSides(lines)[d].accountId == CreditSides(lines)[c].accountId
  {
    hide DebitSides, CreditSides;
    if i, k :| 0 <= i < |lines| && 0 <= k < |lines| && lines[i].debitMinor > 0
               && lines[k].accountId == lines[i].accountId && lines[k].creditMinor > 0 {
      var d := DebitPlace(lines, i);
      var c := CreditPlace(lines, k);
    }
    if d, c :| 0 <= d < |DebitSides(lines)| && 0 <= c < |CreditSides(lines)|
               && DebitSides(lines)[d].accountId == CreditSides(lines)[c].accountId {
      var i := DebitOrigin(lines, d);
      var k := CreditOrigin(lines, c);
    }
  }

  lemma {:induction false} DebitPlace(lines: seq<Line>, i: nat) returns (d: nat)
    requires i < |lines| && lines[i].debitMinor > 0
    ensures d < |DebitSides(lines)| && DebitSides(lines)[d].accountId == lines[i].accountId
  {
    if i == 0 {
      d := 0;
    } else {
      d := DebitPlace(lines[1..], i - 1);
      d := if lines[0].debitMinor > 0 then d + 1 else d;
    }
  }

  lemma {:induction false} CreditPlace(lines: seq<Line>, i: nat) returns (c: nat)
    requires i < |lines| && lines[i].creditMinor > 0
    ensures c < |CreditSides(lines)| && CreditSides(lines)[c].accountId == lines[i].accountId
  {
    if i == 0 {
      c := 0;
    } else {
      c := CreditPlace(lines[1..], i - 1);
      c := if lines[0].creditMinor > 0 then c + 1 else c;
    }
  }
}
