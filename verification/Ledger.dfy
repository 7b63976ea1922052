/**
 Manual journal entries and the balances of the chart of accounts,
 `src/modules/admin-accounting/admin-accounting.service.ts`, with the posting and reversal of entries in
 `src/services/accounting/posting.service.ts`.
 */
module Ledger {
  import opened Common

  type Account = string

  /** A line as submitted, in rupees. */
  datatype Line = Line(account: Account, debit: real, credit: real)

  /** A line as stored: the columns hold two decimals, so amounts are whole paise. */
  datatype StoredLine = StoredLine(account: Account, debit: int, credit: int)

  datatype Status = Posted | Reversed

  datatype Entry = Entry(date: int, status: Status, lines: seq<StoredLine>)

  datatype Error =
    | InvalidRequest
    | DoesNotBalance
    | ZeroEntry
    | TooFewLines
    | NotPostable
    | UnknownAccount
    | InvalidLine
    | EntryNotFound
    | AlreadyReversed

  const ROUNDING_DIFFERENCE: Account := "6990"
  const BALANCE_TOLERANCE: real := 0.02

  /** The limits of the request schema. */
  const MIN_LINES: nat := 2
  const MAX_LINES: nat := 60
  const MAX_AMOUNT: real := 999_999_999.0

  /** An amount rounded to whole paise, half up. */
  function Paise(rupees: real): int {
    (rupees * 100.0 + 0.5).Floor
  }

  predicate IsWhole(rupees: real) {
    Paise(rupees) as real == rupees * 100.0
  }

  function Debits(lines: seq<Line>): real {
    if lines == [] then 0.0 else Debits(lines[..|lines| - 1]) + lines[|lines| - 1].debit
  }

  function Credits(lines: seq<Line>): real {
    if lines == [] then 0.0 else Credits(lines[..|lines| - 1]) + lines[|lines| - 1].credit
  }

  // ---------- from submission to storage

  predicate IsValid(l: Line) {
    l.debit >= 0.0 && l.credit >= 0.0 && !(l.debit > 0.0 && l.credit > 0.0)
  }

  function NonZero(lines: seq<Line>): seq<Line> {
    if lines == [] then []
    else
      var last := lines[|lines| - 1];
      NonZero(lines[..|lines| - 1]) + if last.debit == 0.0 && last.credit == 0.0 then [] else [last]
  }

  predicate IsAccountCode(account: Account) {
    3 <= |account| <= 10
  }

  /** What the request schema lets through to `postManualJournal`. */
  predicate IsSubmission(lines: seq<Line>) {
    && MIN_LINES <= |lines| <= MAX_LINES
    && forall i :: 0 <= i < |lines| ==>
         && IsAccountCode(lines[i].account)
         && 0.0 <= lines[i].debit <= MAX_AMOUNT && 0.0 <= lines[i].credit <= MAX_AMOUNT
  }

  /** The request schema, then the check of `postManualJournal` on totals rounded to whole paise. */
  function Checked(lines: seq<Line>): Result<(), Error> {
    var debit, credit := Paise(Debits(lines)), Paise(Credits(lines));
    if !IsSubmission(lines) then Failure(InvalidRequest)
    else if debit - credit > 1 || credit - debit > 1 then Failure(DoesNotBalance)
    else if debit == 0 then Failure(ZeroEntry)
    else Success(())
  }

  /** A small difference goes to the rounding account, on the short side. */
  function Absorbed(lines: seq<Line>): seq<Line> {
    var d, c := Debits(lines), Credits(lines);
    if d == c then lines
    else if d < c then lines + [Line(ROUNDING_DIFFERENCE, c - d, 0.0)]
    else lines + [Line(ROUNDING_DIFFERENCE, 0.0, d - c)]
  }

  predicate AllIn(lines: seq<Line>, accounts: set<Account>) {
    forall i :: 0 <= i < |lines| ==> lines[i].account in accounts
  }

  predicate AllValid(lines: seq<Line>) {
    forall i :: 0 <= i < |lines| ==> IsValid(lines[i])
  }

  function Prepared(lines: seq<Line>, postable: bool, accounts: set<Account>): Result<seq<Line>, Error> {
    if |lines| < 2 then Failure(TooFewLines)
    else if !postable then Failure(NotPostable)
    else if !AllIn(lines, accounts) then Failure(UnknownAccount)
    else if !AllValid(lines) then Failure(InvalidLine)
    else if |NonZero(lines)| < 2 then Failure(TooFewLines)
    else if Abs(Debits(lines) - Credits(lines)) > BALANCE_TOLERANCE then Failure(DoesNotBalance)
    else Success(Absorbed(NonZero(lines)))
  }

  function StoreLine(l: Line): StoredLine {
    StoredLine(l.account, Paise(l.debit), Paise(l.credit))
  }

  function Stored(lines: seq<Line>): (stored: seq<StoredLine>)
    ensures |stored| == |lines|
  {
    if lines == [] then [] else Stored(lines[..|lines| - 1]) + [StoreLine(lines[|lines| - 1])]
  }

  lemma AllAppend(lines: seq<Line>, l: Line, accounts: set<Account>)
    ensures AllIn(lines + [l], accounts) <==> AllIn(lines, accounts) && l.account in accounts
    ensures AllValid(lines + [l]) <==> AllValid(lines) && IsValid(l)
  {
    assert (lines + [l])[|lines|] == l;
    assert forall i :: 0 <= i < |lines| ==> (lines + [l])[i] == lines[i];
  }

  lemma OneMoreLine(lines: seq<Line>, i: nat)
    requires i < |lines|
    ensures Debits(lines[..i + 1]) == Debits(lines[..i]) + lines[i].debit
    ensures Credits(lines[..i + 1]) == Credits(lines[..i]) + lines[i].credit
    ensures NonZero(lines[..i + 1])
         == if lines[i].debit == 0.0 && lines[i].credit == 0.0 then NonZero(lines[..i])
            else NonZero(lines[..i]) + [lines[i]]
    ensures AllValid(lines[..i + 1]) <==> AllValid(lines[..i]) && IsValid(lines[i])
    ensures AllValid(lines) ==> IsValid(lines[i])
  {
    assert lines[..i + 1] == lines[..i] + [lines[i]];
    AllAppend(lines[..i], lines[i], {});
    assert lines[..i + 1][..i] == lines[..i];
    assert NonZero(lines[..i]) + [] == NonZero(lines[..i]);
  }

  /** The loop over the lines: refuses an invalid one, drops zero lines, adds up the rest. */
  method PrepareLines(lines: seq<Line>, postable: bool, accounts: set<Account>) returns (r: Result<seq<Line>, Error>)
    ensures r == Prepared(lines, postable, accounts)
  {
    if |lines| < 2 {
      return Failure(TooFewLines);
    }
    if !postable {
      return Failure(NotPostable);
    }
    if !AllIn(lines, accounts) {
      return Failure(UnknownAccount);
    }
    hide Absorbed, Abs;
    var totalDebit, totalCredit, kept := 0.0, 0.0, [];
    for i := 0 to |lines|
      invariant AllValid(lines[..i])
      invariant totalDebit == Debits(lines[..i]) && totalCredit == Credits(lines[..i]) && kept == NonZero(lines[..i])
    {
      var line := lines[i];
      OneMoreLine(lines, i);
      hide Debits, Credits, NonZero, AllValid, AllIn;
      if line.debit < 0.0 || line.credit < 0.0 {
        return Failure(InvalidLine);
      }
      if line.debit > 0.0 && line.credit > 0.0 {
        return Failure(InvalidLine);
      }
      if line.debit == 0.0 && line.credit == 0.0 {
        continue;
      }
      totalDebit := totalDebit + line.debit;
      totalCredit := totalCredit + line.credit;
      kept := kept + [line];
    }
    assert lines[..|lines|] == lines;
    if |kept| < 2 {
      return Failure(TooFewLines);
    }
    NonZeroKeepsTotals(lines);
    r := AbsorbDifference(kept, totalDebit, totalCredit);
  }

  /** The end of the preparation: a difference within the tolerance gets a line of its own. */
  method AbsorbDifference(lines: seq<Line>, totalDebit: real, totalCredit: real) returns (r: Result<seq<Line>, Error>)
    requires totalDebit == Debits(lines) && totalCredit == Credits(lines)
    ensures r == if Abs(totalDebit - totalCredit) > BALANCE_TOLERANCE then Failure(DoesNotBalance)
                 else Success(Absorbed(lines))
  {
    var difference := Abs(totalDebit - totalCredit);
    if difference > BALANCE_TOLERANCE {
      return Failure(DoesNotBalance);
    }
    if difference == 0.0 {
      return Success(lines);
    }
    var shortSide := totalDebit < totalCredit;
    var debit, credit := if shortSide then difference else 0.0, if shortSide then 0.0 else difference;
    return Success(lines + [Line(ROUNDING_DIFFERENCE, debit, credit)]);
  }

  lemma {:induction false} NonZeroKeepsTotals(lines: seq<Line>)
    ensures Debits(NonZero(lines)) == Debits(lines) && Credits(NonZero(lines)) == Credits(lines)
    decreases lines
  {
    if lines != [] {
      var rest, last := lines[..|lines| - 1], lines[|lines| - 1];
      NonZeroKeepsTotals(rest);
      TotalsAppend(NonZero(rest), last);
      assert NonZero(rest) + [] == NonZero(rest);
    }
  }

  lemma TotalsAppend(lines: seq<Line>, l: Line)
    ensures Debits(lines + [l]) == Debits(lines) + l.debit && Credits(lines + [l]) == Credits(lines) + l.credit
  {
    assert (lines + [l])[..|lines|] == lines;
  }

  /** What reaches the database is exactly balanced, until the columns round it. */
  lemma PreparedIsBalanced(lines: seq<Line>, postable: bool, accounts: set<Account>)
    requires Prepared(lines, postable, accounts).Success?
    ensures var prepared := Prepared(lines, postable, accounts).value;
            Debits(prepared) == Credits(prepared) && forall l :: l in prepared ==> IsValid(l)
  {
    var kept := NonZero(lines);
    NonZeroIsSublist(lines);
    TotalsAppend(kept, Line(ROUNDING_DIFFERENCE, Credits(kept) - Debits(kept), 0.0));
    TotalsAppend(kept, Line(ROUNDING_DIFFERENCE, 0.0, Debits(kept) - Credits(kept)));
  }

  lemma {:induction false} NonZeroIsSublist(lines: seq<Line>)
    ensures forall l :: l in NonZero(lines) ==> l in lines
    decreases lines
  {
    if lines != [] {
      NonZeroIsSublist(lines[..|lines| - 1]);
    }
  }

  // ---------- how far a stored entry can be out of balance

  /** Debits minus credits of an entry, in paise. */
  function Net(lines: seq<StoredLine>): int {
    if lines == [] then 0 else Net(lines[..|lines| - 1]) + lines[|lines| - 1].debit - lines[|lines| - 1].credit
  }

  lemma PaiseIsNear(x: real)
    ensures -0.5 < Paise(x) as real - x * 100.0 <= 0.5
    ensures Paise(0.0) == 0
  {
  }

  /** Rounding each line moves an entry's balance by at most half a paisa a line. */
  lemma {:induction false} StoringMovesLittle(lines: seq<Line>)
    requires forall l :: l in lines ==> IsValid(l)
    ensures Abs(Net(Stored(lines)) as real - (Debits(lines) - Credits(lines)) * 100.0) <= 0.5 * |lines| as real
    decreases lines
  {
    if lines != [] {
      var rest, last := lines[..|lines| - 1], lines[|lines| - 1];
      assert last in lines;
      StoringMovesLittle(rest);
      assert Stored(lines)[..|lines| - 1] == Stored(rest);
      PaiseIsNear(last.debit);
      PaiseIsNear(last.credit);
      assert Abs((Paise(last.debit) - Paise(last.credit)) as real - (last.debit - last.credit) * 100.0) <= 0.5;
    }
  }

  predicate AllWhole(lines: seq<Line>) {
    forall l :: l in lines ==> IsWhole(l.debit) && IsWhole(l.credit)
  }

  /** Amounts of whole paise are stored as they are. */
  lemma {:induction false} StoringWholePaiseIsExact(lines: seq<Line>)
    requires AllWhole(lines)
    ensures Net(Stored(lines)) as real == (Debits(lines) - Credits(lines)) * 100.0
    decreases lines
  {
    if lines != [] {
      var rest, last := lines[..|lines| - 1], lines[|lines| - 1];
      assert last in lines;
      StoringWholePaiseIsExact(rest);
      assert Stored(lines)[..|lines| - 1] == Stored(rest);
    }
  }

  /** Whole-paise totals differ by whole paise. */
  lemma {:induction false} WholeTotals(lines: seq<Line>)
    requires AllWhole(lines)
    ensures IsWhole(Debits(lines) - Credits(lines)) && IsWhole(Credits(lines) - Debits(lines))
    decreases lines
  {
    if lines == [] {
      assert IsWhole(0.0);
    } else {
      var rest, last := lines[..|lines| - 1], lines[|lines| - 1];
      assert last in lines;
      WholeTotals(rest);
      WholeSum(Debits(rest) - Credits(rest), last.debit, last.credit);
      WholeSum(Credits(rest) - Debits(rest), last.credit, last.debit);
      assert Debits(lines) - Credits(lines) == Debits(rest) - Credits(rest) + last.debit - last.credit;
    }
  }

  lemma WholeSum(a: real, b: real, c: real)
    requires IsWhole(a) && IsWhole(b) && IsWhole(c)
    ensures IsWhole(a + b - c)
  {
    var n := Paise(a) + Paise(b) - Paise(c);
    assert n as real == (a + b - c) * 100.0;
    assert (n as real + 0.5).Floor == n;
  }

  lemma PreparedIsWhole(lines: seq<Line>, postable: bool, accounts: set<Account>)
    requires Prepared(lines, postable, accounts).Success? && AllWhole(lines)
    ensures AllWhole(Prepared(lines, postable, accounts).value)
  {
    NonZeroIsSublist(lines);
    WholeTotals(NonZero(lines));
    assert IsWhole(0.0);
    hide IsWhole, NonZero, Debits, Credits;
  }

  lemma StoredAppend(lines: seq<Line>, l: Line)
    ensures Net(Stored(lines + [l])) == Net(Stored(lines)) + Paise(l.debit) - Paise(l.credit)
  {
    assert (lines + [l])[..|lines|] == lines;
    assert Stored(lines + [l])[..|lines|] == Stored(lines);
  }

  lemma {:induction false} DroppingZeroLinesKeepsNet(lines: seq<Line>)
    ensures Net(Stored(NonZero(lines))) == Net(Stored(lines))
    decreases lines
  {
    if lines != [] {
      var rest, last := lines[..|lines| - 1], lines[|lines| - 1];
      assert lines == rest + [last];
      assert Paise(0.0) == 0;
      assert NonZero(rest) + [] == NonZero(rest);
      assert NonZero(lines)
          == if last.debit == 0.0 && last.credit == 0.0 then NonZero(rest) else NonZero(rest) + [last];
      hide Paise, Net, Stored, NonZero;
      DroppingZeroLinesKeepsNet(rest);
      StoredAppend(rest, last);
      StoredAppend(NonZero(rest), last);
    }
  }

  /** A difference rounded as an amount of its own, on whichever side it is. */
  function SignedPaise(x: real): int {
    if x < 0.0 then -Paise(-x) else Paise(x)
  }

  /** The rounded debits minus the rounded credits of a request, less its rounded difference. */
  function Imbalance(lines: seq<Line>): int {
    Net(Stored(lines)) - SignedPaise(Debits(lines) - Credits(lines))
  }

  /** How far an entry is stored out of balance can be computed from the request. */
  lemma StoredImbalanceIs(lines: seq<Line>, postable: bool, accounts: set<Account>)
    requires Prepared(lines, postable, accounts).Success?
    ensures Net(Stored(Prepared(lines, postable, accounts).value)) == Imbalance(lines)
  {
    var kept := NonZero(lines);
    NonZeroKeepsTotals(lines);
    DroppingZeroLinesKeepsNet(lines);
    assert Paise(0.0) == 0;
    StoredAppend(kept, Line(ROUNDING_DIFFERENCE, Credits(kept) - Debits(kept), 0.0));
    StoredAppend(kept, Line(ROUNDING_DIFFERENCE, 0.0, Debits(kept) - Credits(kept)));
    hide Paise, Net, Stored, NonZero, Debits, Credits;
  }

  /**
   A posted entry is out of balance by at most half a paisa a line. It is stored in balance exactly when
   the rounded debits minus the rounded credits of the request are its rounded difference, as they are
   when all amounts are whole paise.
   */
  lemma StoredEntryIsNearlyBalanced(lines: seq<Line>, postable: bool, accounts: set<Account>)
    requires Prepared(lines, postable, accounts).Success?
    ensures var stored := Stored(Prepared(lines, postable, accounts).value);
            && Abs(Net(stored) as real) <= 0.5 * |stored| as real
            && (Net(stored) == 0 <==> Imbalance(lines) == 0)
            && (AllWhole(lines) ==> Net(stored) == 0)
  {
    hide Prepared, Stored, Net, IsWhole, IsValid, Debits, Credits, Imbalance;
    var prepared := Prepared(lines, postable, accounts).value;
    StoredImbalanceIs(lines, postable, accounts);
    PreparedIsBalanced(lines, postable, accounts);
    StoringMovesLittle(prepared);
    if AllWhole(lines) {
      PreparedIsWhole(lines, postable, accounts);
      StoringWholePaiseIsExact(prepared);
    }
  }

  lemma {:induction false} NothingIsZero(lines: seq<Line>)
    requires forall l :: l in lines ==> l.debit != 0.0 || l.credit != 0.0
    ensures NonZero(lines) == lines
    decreases lines
  {
    if lines != [] {
      var last := lines[|lines| - 1];
      assert last in lines;
      NothingIsZero(lines[..|lines| - 1]);
      assert lines == lines[..|lines| - 1] + [last];
    }
  }

  /** Half a paisa on the debit side, which is stored as a whole one. */
  predicate IsHalf(l: Line, account: Account) {
    l == Line(account, 0.005, 0.0)
  }

  lemma HalfIsStoredWhole(l: Line, account: Account)
    requires IsHalf(l, account)
    ensures Paise(l.debit) == 1 && Paise(l.credit) == 0
  {
    assert 0.005 * 100.0 + 0.5 == 1.0;
  }

  lemma {:induction false} HalvesAddUp(halves: seq<Line>, account: Account)
    requires forall l :: l in halves ==> IsHalf(l, account)
    ensures Debits(halves) == 0.005 * |halves| as real && Credits(halves) == 0.0
    ensures Net(Stored(halves)) == |halves|
    decreases halves
  {
    if halves != [] {
      var rest, last := halves[..|halves| - 1], halves[|halves| - 1];
      assert halves == rest + [last] && last in halves;
      HalvesAddUp(rest, account);
      HalfIsStoredWhole(last, account);
      TotalsAppend(rest, last);
      StoredAppend(rest, last);
      hide Debits, Credits, Net, Stored, Paise;
    }
  }

  /** Debits of half a paisa on one account, then credits on another. */
  predicate AreFractions(halves: seq<Line>, credits: seq<Line>, a: Account, b: Account) {
    && IsAccountCode(a) && IsAccountCode(b)
    && (forall l :: l in halves ==> IsHalf(l, a))
    && (forall l :: l in credits ==> l.account == b && l.debit == 0.0 && 0.0 < l.credit <= MAX_AMOUNT)
  }

  lemma FractionsAreLines(halves: seq<Line>, credits: seq<Line>, a: Account, b: Account, accounts: set<Account>)
    requires AreFractions(halves, credits, a, b) && a in accounts && b in accounts
    requires MIN_LINES <= |halves| + |credits| <= MAX_LINES
    ensures IsSubmission(halves + credits) && NonZero(halves + credits) == halves + credits
    ensures forall i :: 0 <= i < |halves + credits| ==>
              (halves + credits)[i].account in accounts && IsValid((halves + credits)[i])
  {
    var lines := halves + credits;
    forall i | 0 <= i < |lines|
      ensures lines[i].account in accounts && IsValid(lines[i]) && IsAccountCode(lines[i].account)
      ensures 0.0 <= lines[i].debit <= MAX_AMOUNT && 0.0 <= lines[i].credit <= MAX_AMOUNT
      ensures lines[i].debit != 0.0 || lines[i].credit != 0.0
    {
      if i < |halves| {
        assert lines[i] in halves;
      } else {
        assert lines[i] in credits;
      }
    }
    NothingIsZero(lines);
  }

  /**
   Half-paisa amounts pass every check and are stored out of balance: 2k debits of half a paisa against
   one credit of their sum are off by k paise, for every k that fits into a request.
   */
  lemma FractionsAreStoredOutOfBalance(
    k: nat, halves: seq<Line>, sum: Line, a: Account, b: Account, accounts: set<Account>)
    requires 0 < k <= 29 && |halves| == 2 * k && sum == Line(b, 0.0, k as real / 100.0)
    requires AreFractions(halves, [sum], a, b) && a in accounts && b in accounts
    ensures Checked(halves + [sum]) == Success(())
    ensures Prepared(halves + [sum], true, accounts) == Success(halves + [sum])
    ensures Net(Stored(halves + [sum])) == k
  {
    HalvesAndSumAddUp(k, halves, sum, a);
    WholePaise(k);
    FractionsAreLines(halves, [sum], a, b, accounts);
    hide Debits, Credits, Stored, Net, Paise, NonZero, IsSubmission, Prepared, AreFractions, IsWhole;
    EvenLinesArePrepared(halves + [sum], accounts);
  }

  lemma HalvesAndSumAddUp(k: nat, halves: seq<Line>, sum: Line, a: Account)
    requires |halves| == 2 * k && forall l :: l in halves ==> IsHalf(l, a)
    requires sum.debit == 0.0 && sum.credit == k as real / 100.0
    ensures Debits(halves + [sum]) == Credits(halves + [sum]) == k as real / 100.0
    ensures Net(Stored(halves + [sum])) == k
  {
    HalvesAddUp(halves, a);
    TotalsAppend(halves, sum);
    StoredAppend(halves, sum);
    WholePaise(k);
    WholePaise(0);
    hide Debits, Credits, Stored, Net, Paise, IsWhole;
  }

  lemma EvenLinesArePrepared(lines: seq<Line>, accounts: set<Account>)
    requires |lines| >= 2 && NonZero(lines) == lines && Debits(lines) == Credits(lines)
    requires forall i :: 0 <= i < |lines| ==> lines[i].account in accounts && IsValid(lines[i])
    ensures Prepared(lines, true, accounts) == Success(lines)
  {
  }

  // ---------- the books

  class Books {
    var entries: seq<Entry>
    const accounts: set<Account>

    constructor (accounts: set<Account>)
      ensures entries == [] && this.accounts == accounts
    {
      entries := [];
      this.accounts := accounts;
    }

    method PostManualJournal(date: int, lines: seq<Line>, postable: bool) returns (r: Result<nat, Error>)
      modifies this
      ensures match PostOf(old(entries), date, lines, postable, accounts)
              case Success(after) => r == Success(|old(entries)|) && entries == after
              case Failure(error) => r == Failure(error) && entries == old(entries)
      ensures AllPosted(old(entries)) ==> AllPosted(entries)
    {
      if !IsSubmission(lines) {
        return Failure(InvalidRequest);
      }
      var totalDebit, totalCredit := Paise(Debits(lines)), Paise(Credits(lines));
      if totalDebit - totalCredit > 1 || totalCredit - totalDebit > 1 {
        return Failure(DoesNotBalance);
      }
      if totalDebit == 0 {
        return Failure(ZeroEntry);
      }
      var prepared := PrepareLines(lines, postable, accounts);
      if prepared.Failure? {
        return Failure(prepared.error);
      }
      StoredEntryIsNearlyBalanced(lines, postable, accounts);
      entries := entries + [Entry(date, Posted, Stored(prepared.value))];
      return Success(|entries| - 1);
    }

    /** Posts the mirror image, dated separately, and marks the original as reversed. */
    method Reverse(i: nat, date: int, postable: bool) returns (r: Result<nat, Error>)
      modifies this
      ensures match ReverseOf(old(entries), i, date, postable, accounts)
              case Success(after) => r == Success(|old(entries)|) && entries == after
              case Failure(error) => r == Failure(error) && entries == old(entries)
      ensures AllPosted(old(entries)) ==> AllPosted(entries)
    {
      if i >= |entries| {
        return Failure(EntryNotFound);
      }
      if entries[i].status == Reversed {
        return Failure(AlreadyReversed);
      }
      var prepared := PrepareLines(Mirror(entries[i].lines), postable, accounts);
      if prepared.Failure? {
        return Failure(prepared.error);
      }
      StoredEntryIsNearlyBalanced(Mirror(entries[i].lines), postable, accounts);
      entries := entries[i := entries[i].(status := Reversed)] + [Entry(date, Posted, Stored(prepared.value))];
      return Success(|entries| - 1);
    }
  }

  /** The entries after a manual entry was posted, or why it was refused. */
  function PostOf(entries: seq<Entry>, date: int, lines: seq<Line>, postable: bool, accounts: set<Account>)
    : Result<seq<Entry>, Error>
  {
    match Checked(lines)
    case Failure(error) => Failure(error)
    case Success(_) =>
      match Prepared(lines, postable, accounts)
      case Failure(error) => Failure(error)
      case Success(prepared) => Success(entries + [Entry(date, Posted, Stored(prepared))])
  }

  /** The lines with their sides swapped, read back in rupees. */
  function Mirror(lines: seq<StoredLine>): (mirrored: seq<Line>)
    ensures |mirrored| == |lines|
  {
    if lines == [] then []
    else
      var last := lines[|lines| - 1];
      Mirror(lines[..|lines| - 1]) + [Line(last.account, last.credit as real / 100.0, last.debit as real / 100.0)]
  }

  function ReverseOf(
    entries: seq<Entry>, i: nat, date: int, postable: bool, accounts: set<Account>): Result<seq<Entry>, Error>
  {
    if i >= |entries| then Failure(EntryNotFound)
    else if entries[i].status == Reversed then Failure(AlreadyReversed)
    else match Prepared(Mirror(entries[i].lines), postable, accounts)
      case Failure(error) => Failure(error)
      case Success(lines) =>
        Success(entries[i := entries[i].(status := Reversed)] + [Entry(date, Posted, Stored(lines))])
  }

  // ---------- the chart of accounts

  datatype Normal = DebitNormal | CreditNormal

  function NetOf(lines: seq<StoredLine>, account: Account): int {
    if lines == [] then 0
    else
      var last := lines[|lines| - 1];
      NetOf(lines[..|lines| - 1], account) + if last.account == account then last.debit - last.credit else 0
  }

  /** Only posted entries up to the cut-off count. Without a cut-off all dates do. */
  predicate IsCounted(e: Entry, asAt: Option<int>) {
    e.status == Posted && (asAt.Some? ==> e.date <= asAt.value)
  }

  /** Debits minus credits of an account over the counted entries. */
  function Raw(entries: seq<Entry>, account: Account, asAt: Option<int>): int {
    if entries == [] then 0
    else
      var last := entries[|entries| - 1];
      Raw(entries[..|entries| - 1], account, asAt) + if IsCounted(last, asAt) then NetOf(last.lines, account) else 0
  }

  /** The balance as shown: a credit-normal account shows its credit surplus. */
  function Balance(entries: seq<Entry>, account: Account, normal: Normal, asAt: Option<int>): int {
    if normal == DebitNormal then Raw(entries, account, asAt) else -Raw(entries, account, asAt)
  }

  datatype ChartRow = ChartRow(account: Account, normal: Normal)

  /** Debit-normal balances minus credit-normal balances over the rows of the chart. */
  function ChartDifference(chart: seq<ChartRow>, entries: seq<Entry>, asAt: Option<int>): int {
    if chart == [] then 0
    else
      var last := chart[|chart| - 1];
      var balance := Balance(entries, last.account, last.normal, asAt);
      ChartDifference(chart[..|chart| - 1], entries, asAt) + if last.normal == DebitNormal then balance else -balance
  }

  ghost predicate EachOnce(chart: seq<ChartRow>) {
    forall i, j :: 0 <= i < j < |chart| ==> chart[i].account != chart[j].account
  }

  ghost predicate IsInChart(chart: seq<ChartRow>, account: Account) {
    exists r :: r in chart && r.account == account
  }

  /** The full, unfiltered chart: every account that has a line is on it, each account once. */
  ghost predicate IsFullChart(chart: seq<ChartRow>, entries: seq<Entry>) {
    && EachOnce(chart)
    && forall e, l :: e in entries && l in e.lines ==> IsInChart(chart, l.account)
  }

  function SumNetOf(chart: seq<ChartRow>, lines: seq<StoredLine>): int {
    if chart == [] then 0 else SumNetOf(chart[..|chart| - 1], lines) + NetOf(lines, chart[|chart| - 1].account)
  }

  /** A line counts once, on its own account. */
  lemma {:induction false} LineCountsOnce(chart: seq<ChartRow>, lines: seq<StoredLine>, l: StoredLine)
    requires EachOnce(chart)
    ensures SumNetOf(chart, lines + [l])
         == SumNetOf(chart, lines) + if IsInChart(chart, l.account) then l.debit - l.credit else 0
    decreases chart
  {
    if chart != [] {
      var rest, last := chart[..|chart| - 1], chart[|chart| - 1];
      assert chart == rest + [last];
      LineCountsOnce(rest, lines, l);
      assert (lines + [l])[..|lines|] == lines;
      if last.account == l.account {
        assert last in chart;
        forall r | r in rest ensures r.account != l.account {
        }
      }
    }
  }

  lemma {:induction false} NoLinesNoSum(chart: seq<ChartRow>)
    ensures SumNetOf(chart, []) == 0
    decreases chart
  {
    if chart != [] {
      NoLinesNoSum(chart[..|chart| - 1]);
    }
  }

  lemma {:induction false} ChartCoversEntry(chart: seq<ChartRow>, lines: seq<StoredLine>)
    requires EachOnce(chart) && forall l :: l in lines ==> IsInChart(chart, l.account)
    ensures SumNetOf(chart, lines) == Net(lines)
    decreases lines
  {
    if lines == [] {
      NoLinesNoSum(chart);
    } else {
      var rest, last := lines[..|lines| - 1], lines[|lines| - 1];
      assert lines == rest + [last];
      ChartCoversEntry(chart, rest);
      LineCountsOnce(chart, rest, last);
    }
  }

  /** The sum of the raw balances, an entry at a time. */
  lemma {:induction false} ChartDifferenceGrows(chart: seq<ChartRow>, entries: seq<Entry>, e: Entry, asAt: Option<int>)
    ensures ChartDifference(chart, entries + [e], asAt)
         == ChartDifference(chart, entries, asAt) + if IsCounted(e, asAt) then SumNetOf(chart, e.lines) else 0
    decreases chart
  {
    if chart != [] {
      assert (entries + [e])[..|entries|] == entries;
      ChartDifferenceGrows(chart[..|chart| - 1], entries, e, asAt);
    }
  }

  lemma {:induction false} NoEntriesNoDifference(chart: seq<ChartRow>, asAt: Option<int>)
    ensures ChartDifference(chart, [], asAt) == 0
    decreases chart
  {
    if chart != [] {
      NoEntriesNoDifference(chart[..|chart| - 1], asAt);
    }
  }

  function TotalNet(entries: seq<Entry>, asAt: Option<int>): int {
    if entries == [] then 0
    else
      var last := entries[|entries| - 1];
      TotalNet(entries[..|entries| - 1], asAt) + if IsCounted(last, asAt) then Net(last.lines) else 0
  }

  function LineCount(entries: seq<Entry>): nat {
    if entries == [] then 0 else LineCount(entries[..|entries| - 1]) + |entries[|entries| - 1].lines|
  }

  /** Over the full chart, the two sides differ by exactly what the counted entries are out of balance. */
  lemma {:induction false} ChartDifferenceIsTotalNet(chart: seq<ChartRow>, entries: seq<Entry>, asAt: Option<int>)
    requires IsFullChart(chart, entries)
    ensures ChartDifference(chart, entries, asAt) == TotalNet(entries, asAt)
    decreases entries
  {
    if entries == [] {
      NoEntriesNoDifference(chart, asAt);
    } else {
      var rest, last := entries[..|entries| - 1], entries[|entries| - 1];
      assert entries == rest + [last];
      assert IsFullChart(chart, rest);
      ChartDifferenceIsTotalNet(chart, rest, asAt);
      ChartDifferenceGrows(chart, rest, last, asAt);
      ChartCoversEntry(chart, last.lines);
    }
  }

  /** Every entry came through posting: out of balance by at most half a paisa a line. */
  ghost predicate AllPosted(entries: seq<Entry>) {
    forall e :: e in entries ==> Abs(Net(e.lines) as real) <= 0.5 * |e.lines| as real
  }

  lemma {:induction false} TotalNetIsBounded(entries: seq<Entry>, asAt: Option<int>)
    requires AllPosted(entries)
    ensures Abs(TotalNet(entries, asAt) as real) <= 0.5 * LineCount(entries) as real
    ensures (forall e :: e in entries ==> Net(e.lines) == 0) ==> TotalNet(entries, asAt) == 0
    decreases entries
  {
    if entries != [] {
      assert entries[|entries| - 1] in entries;
      TotalNetIsBounded(entries[..|entries| - 1], asAt);
    }
  }

  /**
   For any books whose entries came through posting and any cut-off, the debit-normal and the
   credit-normal balances of the full chart differ by at most half a paisa a stored line, and not at
   all while every entry is stored in balance.
   */
  lemma ChartNearlyBalances(chart: seq<ChartRow>, entries: seq<Entry>, asAt: Option<int>)
    requires IsFullChart(chart, entries) && AllPosted(entries)
    ensures Abs(ChartDifference(chart, entries, asAt) as real) <= 0.5 * LineCount(entries) as real
    ensures (forall e :: e in entries ==> Net(e.lines) == 0) ==> ChartDifference(chart, entries, asAt) == 0
  {
    ChartDifferenceIsTotalNet(chart, entries, asAt);
    TotalNetIsBounded(entries, asAt);
  }

  // ---------- what a reversal does to the balances

  /** An amount is on one side, and some amount is there. */
  predicate IsWellStored(l: StoredLine) {
    l.debit >= 0 && l.credit >= 0 && (l.debit == 0 <==> l.credit > 0)
  }

  predicate WellStored(lines: seq<StoredLine>) {
    forall l :: l in lines ==> IsWellStored(l)
  }

  lemma {:induction false} NonZeroHasNoZero(lines: seq<Line>)
    ensures forall l :: l in NonZero(lines) ==> l in lines && (l.debit != 0.0 || l.credit != 0.0)
    decreases lines
  {
    if lines != [] {
      NonZeroHasNoZero(lines[..|lines| - 1]);
    }
  }

  lemma {:induction false} StoredLinesAre(lines: seq<Line>)
    ensures forall s :: s in Stored(lines) ==> exists l :: l in lines && s == StoreLine(l)
    decreases lines
  {
    if lines != [] {
      var rest, last := lines[..|lines| - 1], lines[|lines| - 1];
      assert lines == rest + [last];
      StoredLinesAre(rest);
      forall s | s in Stored(lines) ensures exists l :: l in lines && s == StoreLine(l) {
        if s in Stored(rest) {
          var l :| l in rest && s == StoreLine(l);
          assert l in lines;
        } else {
          assert last in lines && s == StoreLine(last);
        }
      }
    }
  }

  /** Posting whole-paise amounts stores one-sided lines that balance. */
  lemma PostedIsWellStored(lines: seq<Line>, postable: bool, accounts: set<Account>)
    requires Prepared(lines, postable, accounts).Success?
    requires AllWhole(lines)
    ensures var stored := Stored(Prepared(lines, postable, accounts).value);
            WellStored(stored) && Net(stored) == 0
  {
    var prepared := Prepared(lines, postable, accounts).value;
    StoredEntryIsNearlyBalanced(lines, postable, accounts);
    PreparedIsBalanced(lines, postable, accounts);
    PreparedIsWhole(lines, postable, accounts);
    PreparedHasNoZero(lines, postable, accounts);
    StoredLinesAre(prepared);
    hide Prepared, Stored, Net, StoreLine, IsValid, IsWhole, Debits, Credits;
    forall s | s in Stored(prepared) ensures IsWellStored(s) {
      var l :| l in prepared && s == StoreLine(l);
      WholeLineIsWellStored(l);
    }
  }

  lemma PreparedHasNoZero(lines: seq<Line>, postable: bool, accounts: set<Account>)
    requires Prepared(lines, postable, accounts).Success?
    ensures forall l :: l in Prepared(lines, postable, accounts).value ==> l.debit != 0.0 || l.credit != 0.0
  {
    NonZeroHasNoZero(lines);
    hide NonZero, Debits, Credits;
  }

  lemma WholeLineIsWellStored(l: Line)
    requires IsWhole(l.debit) && IsWhole(l.credit) && IsValid(l) && (l.debit != 0.0 || l.credit != 0.0)
    ensures IsWellStored(StoreLine(l))
  {
  }

  lemma WholePaise(n: int)
    ensures Paise(n as real / 100.0) == n && IsWhole(n as real / 100.0)
  {
    assert n as real / 100.0 * 100.0 == n as real;
    assert (n as real + 0.5).Floor == n;
  }

  /** The mirror image of stored lines has the opposite effect on every account and on the balance. */
  lemma {:induction false} MirrorIsExact(lines: seq<StoredLine>, account: Account)
    ensures WellStored(lines) ==> NonZero(Mirror(lines)) == Mirror(lines)
    ensures NetOf(Stored(Mirror(lines)), account) == -NetOf(lines, account)
    ensures (Debits(Mirror(lines)) - Credits(Mirror(lines))) * 100.0 == -(Net(lines) as real)
    decreases lines
  {
    if lines != [] {
      var rest, last := lines[..|lines| - 1], lines[|lines| - 1];
      assert last in lines;
      MirrorIsExact(rest, account);
      assert Mirror(lines)[..|lines| - 1] == Mirror(rest);
      assert Stored(Mirror(lines))[..|lines| - 1] == Stored(Mirror(rest));
      WholePaise(last.debit);
      WholePaise(last.credit);
    }
  }

  lemma {:induction false} MirrorIsWhole(lines: seq<StoredLine>)
    ensures AllWhole(Mirror(lines))
    decreases lines
  {
    if lines != [] {
      MirrorIsWhole(lines[..|lines| - 1]);
      WholePaise(lines[|lines| - 1].debit);
      WholePaise(lines[|lines| - 1].credit);
    }
  }

  /** The reversing entry itself is always stored in balance, whatever it reverses. */
  lemma ReversalIsBalanced(lines: seq<StoredLine>, postable: bool, accounts: set<Account>)
    requires Prepared(Mirror(lines), postable, accounts).Success?
    ensures Net(Stored(Prepared(Mirror(lines), postable, accounts).value)) == 0
  {
    MirrorIsWhole(lines);
    StoredEntryIsNearlyBalanced(Mirror(lines), postable, accounts);
  }

  lemma NetOfAppend(lines: seq<Line>, l: Line, account: Account)
    ensures NetOf(Stored(lines + [l]), account)
         == NetOf(Stored(lines), account) + if l.account == account then Paise(l.debit) - Paise(l.credit) else 0
  {
    assert (lines + [l])[..|lines|] == lines;
    assert Stored(lines + [l])[..|lines|] == Stored(lines);
  }

  lemma {:induction false} DroppingZeroLinesKeepsNetOf(lines: seq<Line>, account: Account)
    ensures NetOf(Stored(NonZero(lines)), account) == NetOf(Stored(lines), account)
    decreases lines
  {
    if lines != [] {
      var rest, last := lines[..|lines| - 1], lines[|lines| - 1];
      assert lines == rest + [last];
      WholePaise(0);
      assert NonZero(rest) + [] == NonZero(rest);
      assert NonZero(lines)
          == if last.debit == 0.0 && last.credit == 0.0 then NonZero(rest) else NonZero(rest) + [last];
      hide Paise, NetOf, Stored, NonZero, IsWhole;
      DroppingZeroLinesKeepsNetOf(rest, account);
      NetOfAppend(rest, last, account);
      NetOfAppend(NonZero(rest), last, account);
    }
  }

  /**
   What the reversing entry does to an account: the opposite of the entry, and on the rounding account
   also what the entry was out of balance.
   */
  function MirrorEffect(lines: seq<StoredLine>, account: Account): int {
    -NetOf(lines, account) + if account == ROUNDING_DIFFERENCE then Net(lines) else 0
  }

  lemma ReversalEffectIs(lines: seq<StoredLine>, postable: bool, accounts: set<Account>, account: Account)
    requires Prepared(Mirror(lines), postable, accounts).Success?
    ensures NetOf(Stored(Prepared(Mirror(lines), postable, accounts).value), account) == MirrorEffect(lines, account)
  {
    var mirrored := Mirror(lines);
    PostedEffectIs(mirrored, postable, accounts, account);
    StoredNetIs(mirrored, account);
    MirrorIsExact(lines, account);
    WholePaise(Net(lines));
    WholePaise(-Net(lines));
    assert Credits(mirrored) - Debits(mirrored) == Net(lines) as real / 100.0;
    hide Prepared, Paise, NetOf, Net, Stored, Mirror, NonZero, Debits, Credits, IsWhole, SubmittedNet, WellStored;
    RoundedNet(Credits(mirrored) - Debits(mirrored), Net(lines));
  }

  lemma RoundedNet(x: real, n: int)
    requires x == n as real / 100.0
    ensures SignedPaise(x) == n
  {
    WholePaise(n);
    WholePaise(-n);
    assert -x == (-n) as real / 100.0;
  }

  lemma {:induction false} RawAfterMarking(entries: seq<Entry>, i: nat, account: Account, asAt: Option<int>)
    requires i < |entries| && entries[i].status == Posted
    ensures Raw(entries[i := entries[i].(status := Reversed)], account, asAt)
         == Raw(entries, account, asAt) - if IsCounted(entries[i], asAt) then NetOf(entries[i].lines, account) else 0
    decreases entries
  {
    var n := |entries| - 1;
    var marked := entries[i := entries[i].(status := Reversed)];
    if i < n {
      assert marked[..n] == entries[..n][i := entries[i].(status := Reversed)];
      RawAfterMarking(entries[..n], i, account, asAt);
    } else {
      assert marked[..n] == entries[..n];
    }
  }

  /**
   A reversal takes the entry's effect off an account twice: once by marking the entry, which no
   balance counts any more, and once by the mirror image.
   */
  lemma ReversalCountsTwice(
    entries: seq<Entry>, i: nat, date: int, postable: bool, accounts: set<Account>, account: Account, asAt: Option<int>)
    requires ReverseOf(entries, i, date, postable, accounts).Success?
    ensures Raw(ReverseOf(entries, i, date, postable, accounts).value, account, asAt)
         == Raw(entries, account, asAt)
            - (if IsCounted(entries[i], asAt) then NetOf(entries[i].lines, account) else 0)
            + (if asAt.Some? ==> date <= asAt.value then MirrorEffect(entries[i].lines, account) else 0)
  {
    var marked := entries[i := entries[i].(status := Reversed)];
    var prepared := Prepared(Mirror(entries[i].lines), postable, accounts).value;
    var after := marked + [Entry(date, Posted, Stored(prepared))];
    ReversalEffectIs(entries[i].lines, postable, accounts, account);
    assert ReverseOf(entries, i, date, postable, accounts) == Success(after);
    assert after[..|marked|] == marked;
    hide Prepared, ReverseOf, Mirror, Stored, NetOf, MirrorEffect;
    RawAfterMarking(entries, i, account, asAt);
  }

  predicate IsOneSided(l: StoredLine) {
    l.debit >= 0 && l.credit >= 0 && (l.debit == 0 || l.credit == 0)
  }

  /** The lines that were not rounded down to nothing. */
  function CountNonZero(lines: seq<StoredLine>): (n: nat)
    ensures n <= |lines|
  {
    if lines == [] then 0
    else
      var last := lines[|lines| - 1];
      CountNonZero(lines[..|lines| - 1]) + if last.debit == 0 && last.credit == 0 then 0 else 1
  }

  lemma {:induction false} MirrorKeepsNonZero(lines: seq<StoredLine>)
    ensures |NonZero(Mirror(lines))| == CountNonZero(lines)
    decreases lines
  {
    if lines != [] {
      MirrorKeepsNonZero(lines[..|lines| - 1]);
      assert Mirror(lines)[..|lines| - 1] == Mirror(lines[..|lines| - 1]);
    }
  }

  lemma {:induction false} MirrorIsAcceptedIff(lines: seq<StoredLine>, accounts: set<Account>)
    ensures AllIn(Mirror(lines), accounts) <==> forall l :: l in lines ==> l.account in accounts
    ensures AllValid(Mirror(lines)) <==> forall l :: l in lines ==> IsOneSided(l)
    decreases lines
  {
    if lines != [] {
      var rest, last := lines[..|lines| - 1], lines[|lines| - 1];
      var mirrored := Line(last.account, last.credit as real / 100.0, last.debit as real / 100.0);
      MirrorIsAcceptedIff(rest, accounts);
      assert lines == rest + [last] && Mirror(lines) == Mirror(rest) + [mirrored];
      assert IsValid(mirrored) <==> IsOneSided(last);
      hide Mirror, IsValid, IsOneSided;
      AllAppend(Mirror(rest), mirrored, accounts);
    }
  }

  /** The checks on the way to a posted entry, all together. */
  lemma PreparedIff(lines: seq<Line>, postable: bool, accounts: set<Account>)
    ensures Prepared(lines, postable, accounts).Success? <==>
            && postable && AllIn(lines, accounts) && AllValid(lines)
            && |lines| >= 2 && |NonZero(lines)| >= 2
            && Abs(Debits(lines) - Credits(lines)) <= BALANCE_TOLERANCE
  {
    hide NonZero, Debits, Credits, IsValid;
  }

  /**
   An entry can be reversed exactly when it is still posted, the date and accounts permit it, its lines
   are one-sided, at least two of them are not zero, and it is stored within two paise of balance: one
   that rounding has moved further, as in `FractionsAreStoredOutOfBalance`, can never be reversed.
   */
  lemma ReversibleIff(entries: seq<Entry>, i: nat, date: int, postable: bool, accounts: set<Account>)
    ensures ReverseOf(entries, i, date, postable, accounts).Success? <==>
            && i < |entries| && entries[i].status == Posted && postable
            && (forall l :: l in entries[i].lines ==> l.account in accounts)
            && (forall l :: l in entries[i].lines ==> IsOneSided(l))
            && CountNonZero(entries[i].lines) >= 2
            && -2 <= Net(entries[i].lines) <= 2
  {
    if i < |entries| {
      MirrorIsPreparedIff(entries[i].lines, postable, accounts);
      hide Prepared, Mirror, Net, IsOneSided, CountNonZero;
    }
  }

  lemma MirrorIsPreparedIff(lines: seq<StoredLine>, postable: bool, accounts: set<Account>)
    ensures Prepared(Mirror(lines), postable, accounts).Success? <==>
            && postable
            && (forall l :: l in lines ==> l.account in accounts) && (forall l :: l in lines ==> IsOneSided(l))
            && CountNonZero(lines) >= 2
            && -2 <= Net(lines) <= 2
  {
    MirrorIsAcceptedIff(lines, accounts);
    MirrorKeepsNonZero(lines);
    PreparedIff(Mirror(lines), postable, accounts);
    MirrorDifference(lines);
    hide Prepared, Mirror, Debits, Credits, NonZero, Net, IsOneSided, CountNonZero, AllIn, AllValid, Abs;
  }

  lemma MirrorDifference(lines: seq<StoredLine>)
    ensures Abs(Debits(Mirror(lines)) - Credits(Mirror(lines))) <= BALANCE_TOLERANCE <==> -2 <= Net(lines) <= 2
  {
    MirrorIsExact(lines, "");
    hide Mirror, Debits, Credits, NonZero, Net, Stored, NetOf, WellStored;
  }

  function Without(entries: seq<Entry>, i: nat): seq<Entry>
    requires i < |entries|
  {
    entries[..i] + entries[i + 1..]
  }

  lemma {:induction false} RawWithout(entries: seq<Entry>, i: nat, account: Account, asAt: Option<int>)
    requires i < |entries|
    ensures Raw(Without(entries, i), account, asAt)
         == Raw(entries, account, asAt) - if IsCounted(entries[i], asAt) then NetOf(entries[i].lines, account) else 0
    decreases entries
  {
    var n := |entries| - 1;
    if i < n {
      RawWithout(entries[..n], i, account, asAt);
      assert Without(entries, i)[..n - 1] == Without(entries[..n], i);
    } else {
      assert Without(entries, i) == entries[..n];
    }
  }

  /**
   A reversal gives an account back the balance it would have had without the entry exactly when its
   mirror image has no effect on the account: for every account but that of rounding differences, when
   the entry had none. Otherwise the balance is off by that effect, negated.
   */
  lemma ReversalCancelsIff(
    entries: seq<Entry>, i: nat, date: int, postable: bool, accounts: set<Account>, account: Account)
    requires ReverseOf(entries, i, date, postable, accounts).Success?
    ensures Raw(ReverseOf(entries, i, date, postable, accounts).value, account, None)
         == Raw(Without(entries, i), account, None) + MirrorEffect(entries[i].lines, account)
    ensures account != ROUNDING_DIFFERENCE || Net(entries[i].lines) == 0 ==>
              (Raw(ReverseOf(entries, i, date, postable, accounts).value, account, None)
               == Raw(Without(entries, i), account, None)
               <==> NetOf(entries[i].lines, account) == 0)
  {
    ReversalCountsTwice(entries, i, date, postable, accounts, account, None);
    RawWithout(entries, i, account, None);
  }

  /**
   A balance as of a date between an entry and its later reversal stays what it was exactly when the
   entry had no effect on the account: dating the reversal later does not protect a reported period.
   */
  lemma {:induction false} ReportedBalanceKeptIff(
    entries: seq<Entry>, i: nat, date: int, postable: bool, accounts: set<Account>, account: Account, asAt: int)
    requires ReverseOf(entries, i, date, postable, accounts).Success?
    requires entries[i].date <= asAt < date
    ensures Raw(ReverseOf(entries, i, date, postable, accounts).value, account, Some(asAt))
         == Raw(entries, account, Some(asAt))
       <==> NetOf(entries[i].lines, account) == 0
  {
    ReversalCountsTwice(entries, i, date, postable, accounts, account, Some(asAt));
  }

  // ---------- what is accepted, and what it does to the balances

  /** The positions of the lines that are not zero on both sides. */
  function NonZeroAt(lines: seq<Line>): set<nat> {
    set i: nat | i < |lines| && !(lines[i].debit == 0.0 && lines[i].credit == 0.0)
  }

  lemma {:induction false} NonZeroAreCounted(lines: seq<Line>)
    ensures |NonZero(lines)| == |NonZeroAt(lines)|
    decreases lines
  {
    if lines != [] {
      var front, last := lines[..|lines| - 1], lines[|lines| - 1];
      NonZeroAreCounted(front);
      assert NonZeroAt(lines)
          == NonZeroAt(front) + if last.debit == 0.0 && last.credit == 0.0 then {} else {|front|};
    }
  }

  /** Totals that round to within a paisa of each other are within the tolerance of the posting service. */
  lemma RoundedTolerance(debits: real, credits: real)
    requires -1 <= Paise(debits) - Paise(credits) <= 1
    ensures Abs(debits - credits) <= BALANCE_TOLERANCE
  {
    PaiseIsNear(debits);
    PaiseIsNear(credits);
    hide Paise;
  }

  /** What the request schema demands. */
  ghost predicate MeetsSchema(lines: seq<Line>) {
    && 2 <= |lines| <= 60
    && forall i :: 0 <= i < |lines| ==>
         && 3 <= |lines[i].account| <= 10
         && 0.0 <= lines[i].debit <= 999_999_999.0 && 0.0 <= lines[i].credit <= 999_999_999.0
  }

  ghost predicate IsTwoSided(l: Line) {
    l.debit > 0.0 && l.credit > 0.0
  }

  /** Which check refuses a request: the first that fails, in this order. */
  ghost predicate IsFirstRefusal(
    error: Option<Error>, lines: seq<Line>, postable: bool, accounts: set<Account>)
  {
    var totals := Paise(Debits(lines)) - Paise(Credits(lines));
    error ==
      if !MeetsSchema(lines) then Some(InvalidRequest)
      else if totals < -1 || 1 < totals then Some(DoesNotBalance)
      else if Debits(lines) < 0.005 then Some(ZeroEntry)
      else if !postable then Some(NotPostable)
      else if exists i :: 0 <= i < |lines| && lines[i].account !in accounts then Some(UnknownAccount)
      else if exists i :: 0 <= i < |lines| && IsTwoSided(lines[i]) then Some(InvalidLine)
      else if |NonZeroAt(lines)| < 2 then Some(TooFewLines)
      else None
  }

  lemma {:induction false} DebitsAreNotNegative(lines: seq<Line>)
    requires forall i :: 0 <= i < |lines| ==> 0.0 <= lines[i].debit
    ensures Debits(lines) >= 0.0
    decreases lines
  {
    if lines != [] {
      DebitsAreNotNegative(lines[..|lines| - 1]);
    }
  }

  /**
   A request is posted exactly when no check refuses it, and refused with the first one that does. The
   posting service's own tolerance never does: it is wider than that of the request.
   */
  lemma AcceptedIff(entries: seq<Entry>, date: int, lines: seq<Line>, postable: bool, accounts: set<Account>)
    ensures var r := PostOf(entries, date, lines, postable, accounts);
            IsFirstRefusal(if r.Success? then None else Some(r.error), lines, postable, accounts)
  {
    NonZeroAreCounted(lines);
    assert IsSubmission(lines) <==> MeetsSchema(lines);
    if MeetsSchema(lines) {
      DebitsAreNotNegative(lines);
      assert Paise(Debits(lines)) == 0 <==> Debits(lines) < 0.005;
      ValidIffOneSided(lines);
      if -1 <= Paise(Debits(lines)) - Paise(Credits(lines)) <= 1 {
        RoundedTolerance(Debits(lines), Credits(lines));
      }
    }
    hide IsSubmission, MeetsSchema, Paise, Debits, Credits, NonZero, NonZeroAt, Absorbed, Stored, Abs, AllValid;
  }

  lemma ValidIffOneSided(lines: seq<Line>)
    requires MeetsSchema(lines)
    ensures AllValid(lines) <==> forall i :: 0 <= i < |lines| ==> !IsTwoSided(lines[i])
  {
  }

  /** The rounded debits minus the rounded credits that a request brings to an account. */
  function SubmittedNet(lines: seq<Line>, account: Account): int {
    if lines == [] then 0
    else
      var last := lines[|lines| - 1];
      SubmittedNet(lines[..|lines| - 1], account)
      + if last.account == account then Paise(last.debit) - Paise(last.credit) else 0
  }

  lemma {:induction false} StoredNetIs(lines: seq<Line>, account: Account)
    ensures NetOf(Stored(lines), account) == SubmittedNet(lines, account)
    decreases lines
  {
    if lines != [] {
      var front, last := lines[..|lines| - 1], lines[|lines| - 1];
      assert lines == front + [last];
      StoredNetIs(front, account);
      NetOfAppend(front, last, account);
      hide Paise, Stored, NetOf;
    }
  }

  lemma PostedEffectIs(lines: seq<Line>, postable: bool, accounts: set<Account>, account: Account)
    requires Prepared(lines, postable, accounts).Success?
    ensures NetOf(Stored(Prepared(lines, postable, accounts).value), account)
         == SubmittedNet(lines, account)
            + if account == ROUNDING_DIFFERENCE then SignedPaise(Credits(lines) - Debits(lines)) else 0
  {
    var kept := NonZero(lines);
    var d, c := Debits(kept), Credits(kept);
    NonZeroKeepsTotals(lines);
    DroppingZeroLinesKeepsNetOf(lines, account);
    StoredNetIs(lines, account);
    assert Paise(0.0) == 0;
    NetOfAppend(kept, Line(ROUNDING_DIFFERENCE, c - d, 0.0), account);
    NetOfAppend(kept, Line(ROUNDING_DIFFERENCE, 0.0, d - c), account);
    hide Paise, NetOf, Stored, NonZero, Debits, Credits, SubmittedNet;
  }

  /**
   A posting adds to the balance of an account what the request brings to it, on the rounding account also
   the rounded difference, and shows it the way the account naturally carries it: for a debit-normal
   account its debits count up, for a credit-normal one its credits. As of an earlier date nothing changes.
   */
  lemma PostingMovesBalance(
    entries: seq<Entry>, date: int, lines: seq<Line>, postable: bool, accounts: set<Account>,
    account: Account, normal: Normal, asAt: Option<int>)
    requires PostOf(entries, date, lines, postable, accounts).Success?
    ensures var effect := SubmittedNet(lines, account)
                          + (if account == "6990" then SignedPaise(Credits(lines) - Debits(lines)) else 0);
            var before := Balance(entries, account, normal, asAt);
            var after := Balance(PostOf(entries, date, lines, postable, accounts).value, account, normal, asAt);
            && (asAt.Some? && asAt.value < date ==> after == before)
            && (asAt.None? || date <= asAt.value ==>
                  after == before + (if normal == CreditNormal then -effect else effect))
  {
    var prepared := Prepared(lines, postable, accounts).value;
    var posted := Entry(date, Posted, Stored(prepared));
    PostedEffectIs(lines, postable, accounts, account);
    assert (entries + [posted])[..|entries|] == entries;
    hide Paise, Prepared, Stored, NetOf, Debits, Credits, SubmittedNet, SignedPaise;
  }

  // ---------- every run of postings and reversals

  datatype Op =
    | Post(date: int, lines: seq<Line>, postable: bool)
    | Reverse(entry: nat, on: int, mayPost: bool)

  function Outcome(entries: seq<Entry>, op: Op, accounts: set<Account>): Result<seq<Entry>, Error> {
    match op
    case Post(date, lines, postable) => PostOf(entries, date, lines, postable, accounts)
    case Reverse(entry, on, mayPost) => ReverseOf(entries, entry, on, mayPost, accounts)
  }

  /** A refused operation changes nothing. */
  function Apply(entries: seq<Entry>, op: Op, accounts: set<Account>): seq<Entry> {
    var outcome := Outcome(entries, op, accounts);
    if outcome.Success? then outcome.value else entries
  }

  /** A request that is posted whatever the books hold. */
  predicate IsAccepted(op: Op, accounts: set<Account>) {
    op.Post? && Checked(op.lines).Success? && Prepared(op.lines, op.postable, accounts).Success?
  }

  function Run(entries: seq<Entry>, ops: seq<Op>, accounts: set<Account>): seq<Entry>
    decreases ops
  {
    if ops == [] then entries else Run(Apply(entries, ops[0], accounts), ops[1..], accounts)
  }

  /** Half a paisa for each of the 60 lines of a request and for the rounding line, in whole paise. */
  const MAX_IMBALANCE: int := 30

  /** No entry is stored further out of balance than the limit. */
  ghost predicate Within(entries: seq<Entry>, limit: int) {
    forall e :: e in entries ==> -limit <= Net(e.lines) <= limit
  }

  lemma {:induction false} NonZeroIsNoLonger(lines: seq<Line>)
    ensures |NonZero(lines)| <= |lines|
    decreases lines
  {
    if lines != [] {
      NonZeroIsNoLonger(lines[..|lines| - 1]);
    }
  }

  /** An accepted request adds at most one line, so its entry is stored within 30 paise of balance. */
  lemma PostedIsWithinBound(lines: seq<Line>, postable: bool, accounts: set<Account>)
    requires Checked(lines).Success? && Prepared(lines, postable, accounts).Success?
    ensures var prepared := Prepared(lines, postable, accounts).value;
            |prepared| <= |lines| + 1 && -MAX_IMBALANCE <= Net(Stored(prepared)) <= MAX_IMBALANCE
  {
    NonZeroIsNoLonger(lines);
    StoredEntryIsNearlyBalanced(lines, postable, accounts);
    hide NonZero, Debits, Credits, Net, Stored, Paise;
  }

  /** Every request is within the bound, some are posted in balance, and a reversal adds nothing. */
  lemma ApplyKeepsWithin(entries: seq<Entry>, op: Op, accounts: set<Account>, limit: int)
    requires limit >= 0 && Within(entries, limit)
    requires limit >= MAX_IMBALANCE || (IsAccepted(op, accounts) ==> Imbalance(op.lines) == 0)
    ensures Within(Apply(entries, op, accounts), limit)
  {
    match op
    case Post(date, lines, postable) =>
      if IsAccepted(op, accounts) {
        PostedIsWithinBound(lines, postable, accounts);
        StoredImbalanceIs(lines, postable, accounts);
        hide Checked, Prepared, Stored, Net, Imbalance;
      }
    case Reverse(entry, on, mayPost) =>
      if ReverseOf(entries, entry, on, mayPost, accounts).Success? {
        ReversalIsBalanced(entries[entry].lines, mayPost, accounts);
        assert entries[entry] in entries;
        hide Prepared, Stored, Net, Mirror;
      }
  }

  lemma {:induction false} RunKeepsWithin(entries: seq<Entry>, ops: seq<Op>, accounts: set<Account>, limit: int)
    requires limit >= 0 && Within(entries, limit)
    requires limit >= MAX_IMBALANCE || AllEven(ops, accounts)
    ensures Within(Run(entries, ops, accounts), limit)
    decreases ops
  {
    if ops != [] {
      assert ops[0] in ops;
      ApplyKeepsWithin(entries, ops[0], accounts, limit);
      RunKeepsWithin(Apply(entries, ops[0], accounts), ops[1..], accounts, limit);
    }
  }

  /** Every accepted request among the operations is stored in balance. */
  ghost predicate AllEven(ops: seq<Op>, accounts: set<Account>) {
    forall op :: op in ops && IsAccepted(op, accounts) ==> Imbalance(op.lines) == 0
  }

  lemma WholePostsAreEven(ops: seq<Op>, accounts: set<Account>)
    requires forall op :: op in ops && op.Post? ==> AllWhole(op.lines)
    ensures AllEven(ops, accounts)
  {
    forall op | op in ops && IsAccepted(op, accounts) ensures Imbalance(op.lines) == 0 {
      StoredEntryIsNearlyBalanced(op.lines, op.postable, accounts);
    }
  }

  function CountedEntries(entries: seq<Entry>, asAt: Option<int>): nat {
    if entries == [] then 0
    else CountedEntries(entries[..|entries| - 1], asAt) + if IsCounted(entries[|entries| - 1], asAt) then 1 else 0
  }

  lemma OneMoreTimes(limit: int, n: nat)
    ensures limit * (n + 1) == limit * n + limit
  {
  }

  lemma {:induction false} TotalNetIsWithin(entries: seq<Entry>, asAt: Option<int>, limit: int)
    requires limit >= 0 && Within(entries, limit)
    ensures -(limit * CountedEntries(entries, asAt)) <= TotalNet(entries, asAt) <= limit * CountedEntries(entries, asAt)
    decreases entries
  {
    if entries != [] {
      var rest, last := entries[..|entries| - 1], entries[|entries| - 1];
      assert last in entries;
      TotalNetIsWithin(rest, asAt, limit);
      OneMoreTimes(limit, CountedEntries(rest, asAt));
      hide Net, IsCounted;
    }
  }

  /**
   After any postings and reversals, at any cut-off, the debit-normal and the credit-normal balances of
   the full chart differ by at most 30 paise for each entry that counts.
   */
  lemma ReachableChartNearlyBalances(
    ops: seq<Op>, accounts: set<Account>, chart: seq<ChartRow>, entries: seq<Entry>, asAt: Option<int>)
    requires entries == Run([], ops, accounts) && IsFullChart(chart, entries)
    ensures -(MAX_IMBALANCE * CountedEntries(entries, asAt)) <= ChartDifference(chart, entries, asAt)
    ensures ChartDifference(chart, entries, asAt) <= MAX_IMBALANCE * CountedEntries(entries, asAt)
  {
    RunKeepsWithin([], ops, accounts, MAX_IMBALANCE);
    TotalNetIsWithin(entries, asAt, MAX_IMBALANCE);
    ChartDifferenceIsTotalNet(chart, entries, asAt);
  }

  /** After any postings of whole-paise amounts and any reversals, the full chart balances at every cut-off. */
  lemma ReachableChartBalances(
    ops: seq<Op>, accounts: set<Account>, chart: seq<ChartRow>, entries: seq<Entry>, asAt: Option<int>)
    requires forall op :: op in ops && op.Post? ==> AllWhole(op.lines)
    requires entries == Run([], ops, accounts) && IsFullChart(chart, entries)
    ensures ChartDifference(chart, entries, asAt) == 0
  {
    WholePostsAreEven(ops, accounts);
    RunKeepsWithin([], ops, accounts, 0);
    TotalNetIsWithin(entries, asAt, 0);
    ChartDifferenceIsTotalNet(chart, entries, asAt);
  }

  // ---------- by exactly how much a reachable chart is off

  lemma {:induction false} RunSnoc(entries: seq<Entry>, ops: seq<Op>, op: Op, accounts: set<Account>)
    ensures Run(entries, ops + [op], accounts) == Apply(Run(entries, ops, accounts), op, accounts)
    decreases ops
  {
    if ops == [] {
      assert [op][1..] == [];
    } else {
      assert (ops + [op])[1..] == ops[1..] + [op];
      RunSnoc(Apply(entries, ops[0], accounts), ops[1..], op, accounts);
    }
  }

  /** The imbalance of the request behind each entry of a run; a reversing entry has none. */
  function Imbalances(ops: seq<Op>, accounts: set<Account>): seq<int> {
    if ops == [] then []
    else
      var earlier, last := ops[..|ops| - 1], ops[|ops| - 1];
      if Outcome(Run([], earlier, accounts), last, accounts).Failure? then Imbalances(earlier, accounts)
      else Imbalances(earlier, accounts) + [if last.Post? then Imbalance(last.lines) else 0]
  }

  ghost predicate NetsAre(entries: seq<Entry>, nets: seq<int>) {
    |nets| == |entries| && forall i :: 0 <= i < |entries| ==> Net(entries[i].lines) == nets[i]
  }

  lemma ApplyAddsNet(entries: seq<Entry>, nets: seq<int>, op: Op, accounts: set<Account>)
    requires NetsAre(entries, nets) && Outcome(entries, op, accounts).Success?
    ensures NetsAre(Apply(entries, op, accounts), nets + [if op.Post? then Imbalance(op.lines) else 0])
  {
    match op
    case Post(date, lines, postable) =>
      StoredImbalanceIs(lines, postable, accounts);
      hide Checked, Prepared, Stored, Net, Imbalance;
    case Reverse(entry, on, mayPost) =>
      ReversalIsBalanced(entries[entry].lines, mayPost, accounts);
      hide Prepared, Stored, Net, Mirror;
  }

  lemma {:induction false} ImbalancesAre(ops: seq<Op>, accounts: set<Account>)
    ensures NetsAre(Run([], ops, accounts), Imbalances(ops, accounts))
    decreases ops
  {
    if ops != [] {
      var earlier, last := ops[..|ops| - 1], ops[|ops| - 1];
      assert ops == earlier + [last];
      ImbalancesAre(earlier, accounts);
      RunSnoc([], earlier, last, accounts);
      hide Run, NetsAre, Outcome;
      if Outcome(Run([], earlier, accounts), last, accounts).Success? {
        ApplyAddsNet(Run([], earlier, accounts), Imbalances(earlier, accounts), last, accounts);
      }
    }
  }

  function SumOfCounted(entries: seq<Entry>, nets: seq<int>, asAt: Option<int>): int
    requires |nets| == |entries|
  {
    if entries == [] then 0
    else
      var n := |entries| - 1;
      SumOfCounted(entries[..n], nets[..n], asAt) + if IsCounted(entries[n], asAt) then nets[n] else 0
  }

  lemma {:induction false} TotalNetIsSum(entries: seq<Entry>, nets: seq<int>, asAt: Option<int>)
    requires NetsAre(entries, nets)
    ensures TotalNet(entries, asAt) == SumOfCounted(entries, nets, asAt)
    decreases entries
  {
    if entries != [] {
      TotalNetIsSum(entries[..|entries| - 1], nets[..|entries| - 1], asAt);
    }
  }

  /**
   After any postings and reversals, at any cut-off, the two sides of the full chart differ by exactly
   the sum of what the requests behind the entries that count show before they are posted.
   */
  lemma ReachableChartIsOffBy(
    ops: seq<Op>, accounts: set<Account>, chart: seq<ChartRow>, entries: seq<Entry>, asAt: Option<int>)
    requires entries == Run([], ops, accounts) && IsFullChart(chart, entries)
    ensures |Imbalances(ops, accounts)| == |entries|
    ensures ChartDifference(chart, entries, asAt) == SumOfCounted(entries, Imbalances(ops, accounts), asAt)
  {
    ImbalancesAre(ops, accounts);
    TotalNetIsSum(entries, Imbalances(ops, accounts), asAt);
    ChartDifferenceIsTotalNet(chart, entries, asAt);
  }

  /** The books after the first `k` operations balance on every full chart at every cut-off. */
  ghost predicate BalanceAfter(ops: seq<Op>, accounts: set<Account>, k: nat)
    requires k <= |ops|
  {
    forall chart, asAt | IsFullChart(chart, Run([], ops[..k], accounts)) ::
      ChartDifference(chart, Run([], ops[..k], accounts), asAt) == 0
  }

  function ChartOf(accounts: seq<Account>): (chart: seq<ChartRow>)
    ensures |chart| == |accounts| && forall i :: 0 <= i < |accounts| ==> chart[i] == ChartRow(accounts[i], DebitNormal)
  {
    seq(|accounts|, i requires 0 <= i < |accounts| => ChartRow(accounts[i], DebitNormal))
  }

  lemma {:induction false} ListingOf(accounts: set<Account>) returns (list: seq<Account>)
    ensures NoDuplicates(list) && forall a :: a in list <==> a in accounts
    decreases accounts
  {
    if accounts == {} {
      list := [];
    } else {
      var a :| a in accounts;
      var rest := ListingOf(accounts - {a});
      list := rest + [a];
    }
  }

  /** Whatever the books hold, some chart is full. */
  lemma FullChartExists(entries: seq<Entry>) returns (chart: seq<ChartRow>)
    ensures IsFullChart(chart, entries)
  {
    var used := set e, l | e in entries && l in e.lines :: l.account;
    var list := ListingOf(used);
    chart := ChartOf(list);
    forall e, l | e in entries && l in e.lines ensures IsInChart(chart, l.account) {
      assert l.account in used;
      var i :| 0 <= i < |list| && list[i] == l.account;
      assert chart[i] in chart;
    }
  }

  lemma BalancedBooksHaveNoNet(ops: seq<Op>, accounts: set<Account>, k: nat)
    requires k <= |ops| && BalanceAfter(ops, accounts, k)
    ensures TotalNet(Run([], ops[..k], accounts), None) == 0
  {
    var chart := FullChartExists(Run([], ops[..k], accounts));
    ChartDifferenceIsTotalNet(chart, Run([], ops[..k], accounts), None);
  }

  /** An accepted request adds its imbalance to the books. */
  lemma PostAddsImbalance(entries: seq<Entry>, op: Op, accounts: set<Account>)
    requires IsAccepted(op, accounts)
    ensures TotalNet(Apply(entries, op, accounts), None) == TotalNet(entries, None) + Imbalance(op.lines)
  {
    StoredImbalanceIs(op.lines, op.postable, accounts);
    var after := Apply(entries, op, accounts);
    assert after[..|entries|] == entries;
    hide Checked, Prepared, Stored, Net, Imbalance;
  }

  /**
   The chart balances throughout a run, at every cut-off, exactly when every accepted request is stored
   in balance, which can be computed from the request before it is posted.
   */
  lemma ReachableChartsBalanceIff(ops: seq<Op>, accounts: set<Account>)
    ensures (forall k :: 0 <= k <= |ops| ==> BalanceAfter(ops, accounts, k)) <==> AllEven(ops, accounts)
  {
    if AllEven(ops, accounts) {
      forall k | 0 <= k <= |ops| ensures BalanceAfter(ops, accounts, k) {
        EvenPrefixBalances(ops, accounts, k);
      }
    }
    if forall k :: 0 <= k <= |ops| ==> BalanceAfter(ops, accounts, k) {
      forall op | op in ops && IsAccepted(op, accounts) ensures Imbalance(op.lines) == 0 {
        var k :| 0 <= k < |ops| && ops[k] == op;
        assert ops[..k + 1] == ops[..k] + [op];
        BalancedBooksHaveNoNet(ops, accounts, k);
        BalancedBooksHaveNoNet(ops, accounts, k + 1);
        hide BalanceAfter, Run, Imbalance, IsAccepted, Apply, TotalNet;
        RunSnoc([], ops[..k], op, accounts);
        PostAddsImbalance(Run([], ops[..k], accounts), op, accounts);
      }
    }
  }

  lemma EvenPrefixBalances(ops: seq<Op>, accounts: set<Account>, k: nat)
    requires k <= |ops| && AllEven(ops, accounts)
    ensures BalanceAfter(ops, accounts, k)
  {
    var entries := Run([], ops[..k], accounts);
    RunKeepsWithin([], ops[..k], accounts, 0);
    forall chart, asAt | IsFullChart(chart, entries) ensures ChartDifference(chart, entries, asAt) == 0 {
      TotalNetIsWithin(entries, asAt, 0);
      ChartDifferenceIsTotalNet(chart, entries, asAt);
    }
  }

  // ---------- the bound is reached

  /** 58 half-paisa debits against two credits that round down: off by 30 paise, the most a request can be. */
  lemma ThirtyPaiseAreReached(
    halves: seq<Line>, credits: seq<Line>, a: Account, b: Account, accounts: set<Account>)
    requires |halves| == 58 && credits == [Line(b, 0.0, 0.1349), Line(b, 0.0, 0.1449)]
    requires AreFractions(halves, credits, a, b) && a in accounts && b in accounts
    ensures Checked(halves + credits).Success? && Prepared(halves + credits, true, accounts).Success?
    ensures Net(Stored(Prepared(halves + credits, true, accounts).value)) == MAX_IMBALANCE
  {
    var lines, rounding := halves + credits, Line(ROUNDING_DIFFERENCE, 0.0, 0.0102);
    assert Debits(lines) == 0.29 && Credits(lines) == 0.2798 && Net(Stored(lines)) == 31 by {
      HalvesAddUp(halves, a);
      assert lines == halves + [credits[0]] + [credits[1]];
      TotalsAppend(halves, credits[0]);
      TotalsAppend(halves + [credits[0]], credits[1]);
      StoredAppend(halves, credits[0]);
      StoredAppend(halves + [credits[0]], credits[1]);
      PaiseOfFractions();
      hide Debits, Credits, Stored, Net, Paise;
    }
    PaiseOfFractions();
    FractionsAreLines(halves, credits, a, b, accounts);
    OddLinesArePrepared(lines, rounding, accounts);
    StoredAppend(lines, rounding);
    hide Debits, Credits, Stored, Net, Paise, NonZero, IsSubmission, Prepared;
  }

  lemma PaiseOfFractions()
    ensures Paise(0.1349) == 13 && Paise(0.1449) == 14 && Paise(0.0102) == 1 && Paise(0.0) == 0
    ensures Paise(0.29) == 29 && Paise(0.2798) == 28
  {
  }

  lemma OddLinesArePrepared(lines: seq<Line>, rounding: Line, accounts: set<Account>)
    requires |lines| >= 2 && NonZero(lines) == lines
    requires 0.0 < Debits(lines) - Credits(lines) <= BALANCE_TOLERANCE
    requires rounding == Line(ROUNDING_DIFFERENCE, 0.0, Debits(lines) - Credits(lines))
    requires forall i :: 0 <= i < |lines| ==> lines[i].account in accounts && IsValid(lines[i])
    ensures Prepared(lines, true, accounts) == Success(lines + [rounding])
  {
  }

  function Repeated(op: Op, n: nat): seq<Op> {
    seq(n, i => op)
  }

  /** Posting the same accepted request again and again. */
  lemma {:induction false} RepeatedPostsAddUp(entries: seq<Entry>, op: Op, n: nat, accounts: set<Account>, net: int)
    requires op.Post? && Checked(op.lines).Success? && Prepared(op.lines, op.postable, accounts).Success?
    requires net == Net(Stored(Prepared(op.lines, op.postable, accounts).value))
    ensures var after := Run(entries, Repeated(op, n), accounts);
            && TotalNet(after, None) == TotalNet(entries, None) + n * net
            && CountedEntries(after, None) == CountedEntries(entries, None) + n
    decreases n
  {
    if n > 0 {
      var added := Entry(op.date, Posted, Stored(Prepared(op.lines, op.postable, accounts).value));
      var next := entries + [added];
      assert Apply(entries, op, accounts) == next;
      assert next[..|entries|] == entries;
      assert Repeated(op, n)[0] == op && Repeated(op, n)[1..] == Repeated(op, n - 1);
      RepeatedPostsAddUp(next, op, n - 1, accounts, net);
      assert (n - 1) * net + net == n * net;
      hide Checked, Prepared, Stored, Net, Apply;
    }
  }

  lemma RepeatedPostsOnChart(
    op: Op, n: nat, accounts: set<Account>, net: int, chart: seq<ChartRow>, entries: seq<Entry>)
    requires op.Post? && Checked(op.lines).Success? && Prepared(op.lines, op.postable, accounts).Success?
    requires net == Net(Stored(Prepared(op.lines, op.postable, accounts).value))
    requires entries == Run([], Repeated(op, n), accounts) && IsFullChart(chart, entries)
    ensures CountedEntries(entries, None) == n && ChartDifference(chart, entries, None) == n * net
  {
    RepeatedPostsAddUp([], op, n, accounts, net);
    ChartDifferenceIsTotalNet(chart, entries, None);
  }

  /**
   The bound cannot be lowered for any number of entries: n such requests leave a chart that is off by
   30 paise for each, however many accounts there are.
   */
  lemma ChartBoundIsReached(
    n: nat, date: int, halves: seq<Line>, credits: seq<Line>, a: Account, b: Account, accounts: set<Account>,
    chart: seq<ChartRow>, entries: seq<Entry>)
    requires |halves| == 58 && credits == [Line(b, 0.0, 0.1349), Line(b, 0.0, 0.1449)]
    requires AreFractions(halves, credits, a, b) && a in accounts && b in accounts
    requires entries == Run([], Repeated(Post(date, halves + credits, true), n), accounts)
    requires IsFullChart(chart, entries)
    ensures CountedEntries(entries, None) == n
    ensures ChartDifference(chart, entries, None) == n * MAX_IMBALANCE
  {
    ThirtyPaiseAreReached(halves, credits, a, b, accounts);
    hide AreFractions;
    RepeatedPostsOnChart(Post(date, halves + credits, true), n, accounts, MAX_IMBALANCE, chart, entries);
  }
}
