/** Old-format stores that a migration breaks. */
module MigrationLimits {
  import opened Texts
  import opened TimeText
  import opened Migration

  function Copies<T>(x: T, n: nat): (r: seq<T>)
    ensures |r| == n
  {
    if n == 0 then [] else [x] + Copies(x, n - 1)
  }

  /** The same range `n` times, in the old format. */
  function OldStore(days: Days, r: Range, n: nat): Store {
    Store(0, DaysText(days, ' '), Copies(FullRange(r), n))
  }

  /** Characters of `n` joined pieces of one length. */
  function CopiesChars(n: nat, length: nat): int {
    if n == 0 then -1 else length + 1 + CopiesChars(n - 1, length)
  }

  lemma {:induction false} CopiesCharsIs(n: nat, length: nat)
    ensures CopiesChars(n, length) == n * (length + 1) - 1
    decreases n
  {
    if n > 0 {
      CopiesCharsIs(n - 1, length);
      assert n * (length + 1) == (n - 1) * (length + 1) + length + 1;
    }
  }

  lemma {:induction false} CopiesJoined(piece: string, n: nat, sep: char)
    requires n > 0
    ensures |Join(Copies(piece, n), sep)| == CopiesChars(n, |piece|)
    decreases n
  {
    assert Copies(piece, n)[1..] == Copies(piece, n - 1);
    if n > 1 {
      CopiesJoined(piece, n - 1, sep);
    }
  }

  lemma {:induction false} CopiesListed(e: Entry, n: nat)
    requires n > 0
    ensures ListChars(Copies(e, n)) == CopiesChars(n, EntryChars(e))
    decreases n
  {
    assert Copies(e, n)[1..] == Copies(e, n - 1);
    if n > 1 {
      CopiesListed(e, n - 1);
    }
  }

  lemma {:induction false} CopiesArePieces(piece: string, n: nat, sep: char)
    requires piece != "" && Lacks(piece, sep)
    ensures Pieces(Copies(piece, n), sep)
    decreases n
  {
    if n > 0 {
      CopiesArePieces(piece, n - 1, sep);
      MorePieces(piece, Copies(piece, n - 1), sep);
    }
  }

  lemma {:induction false} CopiesAreSame<T>(x: T, n: nat)
    ensures forall t :: t in Copies(x, n) ==> t == x
    decreases n
  {
    if n > 0 {
      CopiesAreSame(x, n - 1);
    }
  }

  lemma {:induction false} CopiesLoad(token: string, e: Entry, n: nat, all: Days)
    requires LoadOne(token, all) == [e]
    ensures LoadEntries(Copies(token, n), all) == Copies(e, n)
    decreases n
  {
    if n > 0 {
      CopiesLoad(token, e, n - 1, all);
      LoadMore(token, Copies(token, n - 1), all);
    }
  }

  /** An old-format entry takes the global days. */
  lemma OldEntryLoads(r: Range, all: Days)
    ensures !HasDays(FullRange(r)) && LoadOne(FullRange(r), all) == [Entry(all, r)]
  {
    RangeLacks(r, ';');
    WordStops(FullRange(r), "", ';');
    assert FullRange(r) + "" == FullRange(r);
    FullRangeReads(r);
  }

  lemma OldStoreLoads(days: Days, r: Range, n: nat)
    requires n > 0
    ensures EntryTokens(OldStore(days, r, n)) == Copies(FullRange(r), n)
    ensures Load(OldStore(days, r, n)) == Config(0, days, Copies(Entry(days, r), n))
    ensures OldFormat(OldStore(days, r, n))
  {
    RangeLacks(r, ' ');
    CopiesArePieces(FullRange(r), n, ' ');
    TokensOfJoin(Copies(FullRange(r), n), ' ');
    DaysRead(days, ' ');
    OldEntryLoads(r, days);
    CopiesLoad(FullRange(r), Entry(days, r), n, days);
  }

  lemma OldStoreFits(days: Days, r: Range, n: nat)
    requires 0 < n <= MAX_ENTRIES && CopiesChars(n, |FullRange(r)|) <= LIST_CHARS
    ensures Fits(OldStore(days, r, n))
  {
    OldStoreLoads(days, r, n);
    CopiesJoined(FullRange(r), n, ' ');
    CopiesAreSame(FullRange(r), n);
    OldEntryLoads(r, days);
    DaysFit(days);
  }

  lemma MigratedCopiesFitIff(days: Days, r: Range, n: nat)
    requires 0 < n <= MAX_ENTRIES && CopiesChars(n, |FullRange(r)|) <= LIST_CHARS
    ensures Fits(OldStore(days, r, n))
    ensures Fits(Migrate(OldStore(days, r, n))) <==> CopiesChars(n, EntryChars(Entry(days, r))) <= LIST_CHARS
  {
    OldStoreFits(days, r, n);
    OldStoreLoads(days, r, n);
    CopiesListed(Entry(days, r), n);
    MigratedFitsIff(OldStore(days, r, n));
  }

  /** Forty whole-week entries fit, and no longer fit with their days written out. */
  lemma FortyWeekEntriesOverflow()
    ensures exists s: Store :: Fits(s) && |s.times| == 40 && !Fits(Migrate(s))
  {
    var week: Days := [true, true, true, true, true, true, true];
    var r := Range(Time(0, 0), Time(0, 0));
    WeekEntry(week, r);
    CopiesCharsIs(40, 11);
    CopiesCharsIs(40, 25);
    MigratedCopiesFitIff(week, r, 40);
    assert |OldStore(week, r, 40).times| == 40;
  }

  lemma WeekEntry(week: Days, r: Range)
    requires week == [true, true, true, true, true, true, true] && r == Range(Time(0, 0), Time(0, 0))
    ensures |FullRange(r)| == 11 && EntryChars(Entry(week, r)) == 25
  {
    assert Padded(0) == "00" && FullRange(r) == "00:00-00:00";
    WeekCount();
  }

  lemma WeekCount()
    ensures DayCount([true, true, true, true, true, true, true]) == 7
  {
  }

  /** Every old-format entry with a time that is too long for its buffer is changed by the
      migration, although the store fits before and after. */
  lemma LongTimeIsChanged(days: Days, r: Range)
    requires Int32Range(r) && !Short(r)
    ensures var s := OldStore(days, r, 1);
            && Fits(s) && OldFormat(s) && Load(s) == Config(0, days, [Entry(days, r)])
            && Fits(Migrate(s)) && Load(Migrate(s)) != Load(s)
  {
    var s, e := OldStore(days, r, 1), Entry(days, r);
    Int32Length(r.start.hour);
    Int32Length(r.start.min);
    Int32Length(r.end.hour);
    Int32Length(r.end.min);
    OldStoreFits(days, r, 1);
    OldStoreLoads(days, r, 1);
    assert Copies(e, 1) == [e];
    DaysTextLength(days, ',');
    MigratedFitsIff(s);
    MigrationKeepsConfigIff(s);
  }

  /** A start that is written so that it means 0:40. */
  const LONG_START := Time(-16666666, 1000000000)

  lemma LongStartIsLong()
    ensures !ShortTime(LONG_START)
  {
    assert Pow10(7) == 10000000 && Pow10(9) == 1000000000;
    DecimalIsLong(16666666, 7);
    DecimalIsLong(1000000000, 9);
  }

  lemma OneEntryLoads(days: Days, e: Entry, s: Store)
    ensures Load(Write(Config(0, days, [e]), s)).times == LoadOne(WriteEntry(e), days)
  {
    WrittenIsNew(Config(0, days, [e]), s);
    DaysRead(days, ' ');
    assert [e][1..] == [] && WriteEntries([e]) == [WriteEntry(e)] + [];
    LoadMore(WriteEntry(e), [], days);
  }

  lemma MigratedEntry(days: Days, r: Range)
    requires Int32Range(r)
    ensures ReadRange(WriteRange(r)).Parsed?
    ensures Load(Migrate(OldStore(days, r, 1))).times == [Entry(days, ReadRange(WriteRange(r)).value)]
  {
    OldStoreLoads(days, r, 1);
    assert Copies(Entry(days, r), 1) == [Entry(days, r)];
    OneEntryLoads(days, Entry(days, r), OldStore(days, r, 1));
    EntryReads(Entry(days, r), days);
    RangeReadsIff(r);
  }

  /** With such a start the migration changes the verdict: at midnight the schedule does not
      apply before and applies after. */
  lemma LongTimeChangesVerdict(days: Days, weekday: nat)
    requires weekday < 7 && days[weekday]
    ensures var s := OldStore(days, Range(LONG_START, Time(24, 0)), 1);
            && Fits(s) && OldFormat(s) && Fits(Migrate(s))
            && !Manual(Load(s), weekday, 0) && Manual(Load(Migrate(s)), weekday, 0)
  {
    var r := Range(LONG_START, Time(24, 0));
    LongStartIsLong();
    assert Padded(24) == Decimal(2) + [Digit(4)] && FullTime(r.end) == "24:00";
    LongTimeIsChanged(days, r);
    CutStartReads(r);
    MigratedEntry(days, r);
    var after := Load(Migrate(OldStore(days, r, 1)));
    assert Covers(after.times[0], weekday, 0);
  }
}
