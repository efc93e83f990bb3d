/** Manual schedules: loading them, writing them back in the newer format, judging by them. */
module Migration {
  import opened Texts
  import opened TimeText
  import opened Sequences

  type Days = d: seq<bool> | |d| == 7 witness [false, false, false, false, false, false, false]

  const NO_DAYS: Days := [false, false, false, false, false, false, false]

  datatype Entry = Entry(days: Days, range: Range)

  datatype Config = Config(mode: int, days: Days, times: seq<Entry>)

  /** The stored options: `days` is a text, `times` a list option. */
  datatype Store = Store(mode: int, days: string, times: seq<string>)

  // ----- Loading -----

  function MarkOne(days: Days, day: int): Days {
    if 0 <= day < 7 then days[day := true] else days
  }

  function Mark(days: Days, tokens: seq<string>): Days
    decreases |tokens|
  {
    if tokens == [] then days else Mark(MarkOne(days, Atoi(tokens[0])), tokens[1..])
  }

  /** Newer entries carry their weekdays before a semicolon. */
  predicate HasDays(token: string) {
    |Word(token, ';')| < |token|
  }

  function DaysOf(token: string, all: Days): Days {
    if HasDays(token) then Mark(NO_DAYS, Tokens(Word(token, ';'), ',')) else all
  }

  function RangeText(token: string): string {
    if HasDays(token) then token[|Word(token, ';')| + 1..] else token
  }

  /** Entries whose time does not scan are dropped. */
  function LoadOne(token: string, all: Days): seq<Entry> {
    var range := ReadRange(RangeText(token));
    if range.Parsed? then [Entry(DaysOf(token, all), range.value)] else []
  }

  function LoadEntries(tokens: seq<string>, all: Days): seq<Entry> {
    if tokens == [] then [] else LoadOne(tokens[0], all) + LoadEntries(tokens[1..], all)
  }

  function LoadDays(text: string): Days {
    Mark(NO_DAYS, Tokens(text, ' '))
  }

  function EntryTokens(s: Store): seq<string> {
    Tokens(Join(s.times, ' '), ' ')
  }

  function Load(s: Store): Config {
    Config(s.mode, LoadDays(s.days), LoadEntries(EntryTokens(s), LoadDays(s.days)))
  }

  predicate AnyOld(tokens: seq<string>) {
    tokens != [] && (!HasDays(tokens[0]) || AnyOld(tokens[1..]))
  }

  predicate OldFormat(s: Store) {
    AnyOld(EntryTokens(s))
  }

  // ----- Writing -----

  /** The names of the marked days, the first of them being day `first`. */
  function DayNames(days: seq<bool>, first: nat): seq<string>
    requires first + |days| <= 7
  {
    if days == [] then [] else (if days[0] then [[Digit(first)]] else []) + DayNames(days[1..], first + 1)
  }

  function DaysText(days: Days, sep: char): string {
    Join(DayNames(days, 0), sep)
  }

  function WriteEntry(e: Entry): string {
    DaysText(e.days, ',') + (";" + WriteRange(e.range))
  }

  function WriteEntries(es: seq<Entry>): seq<string> {
    if es == [] then [] else [WriteEntry(es[0])] + WriteEntries(es[1..])
  }

  /** Only manual mode writes the list of times. */
  function Write(c: Config, s: Store): Store {
    Store(c.mode, DaysText(c.days, ' '), if c.mode == 0 then WriteEntries(c.times) else s.times)
  }

  /** `af_load_config`: an old-format entry makes the daemon write back what it loaded. */
  function Migrate(s: Store): Store {
    if OldFormat(s) then Write(Load(s), s) else s
  }

  // ----- The verdict -----

  predicate Covers(e: Entry, weekday: nat, minutes: int)
    requires weekday < 7
  {
    && e.days[weekday]
    && e.range.start.hour * 60 + e.range.start.min <= minutes <= e.range.end.hour * 60 + e.range.end.min
  }

  predicate Manual(c: Config, weekday: nat, minutes: int)
    requires weekday < 7
  {
    exists i :: 0 <= i < |c.times| && Covers(c.times[i], weekday, minutes)
  }

  // ----- Loading and judging in the words of the configuration -----

  /** A day is marked exactly when it was or some token is its number; others are ignored. */
  lemma {:induction false} MarkMeaning(days: Days, tokens: seq<string>, day: nat)
    requires day < 7
    ensures Mark(days, tokens)[day] <==> days[day] || exists i :: 0 <= i < |tokens| && Atoi(tokens[i]) == day
    decreases |tokens|
  {
    if tokens != [] {
      MarkMeaning(MarkOne(days, Atoi(tokens[0])), tokens[1..], day);
      if i :| 0 <= i < |tokens| && Atoi(tokens[i]) == day {
        assert i > 0 ==> tokens[1..][i - 1] == tokens[i];
      }
      if i :| 0 <= i < |tokens[1..]| && Atoi(tokens[1..][i]) == day {
        assert tokens[i + 1] == tokens[1..][i];
      }
    }
  }

  /** A token with a semicolon has its own days in front and its time behind it, one without
      has the global days; a time that does not scan leaves no entry. */
  lemma {:induction false} LoadOneMeaning(names: string, text: string, all: Days)
    requires Lacks(names, ';')
    ensures LoadOne(names + (";" + text), all) ==
            if ReadRange(text).Parsed? then [Entry(Mark(NO_DAYS, Tokens(names, ',')), ReadRange(text).value)] else []
    ensures LoadOne(names, all) == if ReadRange(names).Parsed? then [Entry(all, ReadRange(names).value)] else []
  {
    WordStops(names, ";" + text, ';');
    WordStops(names, "", ';');
    assert names + "" == names;
    assert (names + (";" + text))[|names| + 1..] == text;
  }

  /** The schedule applies when some entry has the weekday and the minute between its start
      and its end, both included. */
  lemma ManualMeaning(c: Config, weekday: nat, minutes: int)
    requires weekday < 7
    ensures Manual(c, weekday, minutes) <==>
            (exists i :: 0 <= i < |c.times| && c.times[i].days[weekday]
                         && c.times[i].range.start.hour * 60 + c.times[i].range.start.min <= minutes
                         && minutes <= c.times[i].range.end.hour * 60 + c.times[i].range.end.min)
  {
    if i :| 0 <= i < |c.times| && Covers(c.times[i], weekday, minutes) {
      assert c.times[i].days[weekday];
    }
    if i :| 0 <= i < |c.times| && c.times[i].days[weekday]
            && c.times[i].range.start.hour * 60 + c.times[i].range.start.min <= minutes
            && minutes <= c.times[i].range.end.hour * 60 + c.times[i].range.end.min {
      assert Covers(c.times[i], weekday, minutes);
    }
  }

  // ----- Weekdays read back -----

  lemma NameReads(day: nat)
    requires day < 10
    ensures Atoi([Digit(day)]) == day
  {
    var name := [Digit(day)];
    assert name[1..] == "";
    assert ScanDigits(name, 0) == ScanDigits(name[1..], DigitValue(name[0]));
  }

  lemma {:induction false} NamesRead(marked: Days, days: Days, from: nat)
    requires from <= 7
    requires forall k :: 0 <= k < from ==> marked[k] == days[k]
    requires forall k :: from <= k < 7 ==> !marked[k]
    ensures Mark(marked, DayNames(days[from..], from)) == days
    decreases 7 - from
  {
    if from == 7 {
      assert marked == days;
    } else {
      var names, more := DayNames(days[from..], from), DayNames(days[from + 1..], from + 1);
      assert days[from..][1..] == days[from + 1..];
      if days[from] {
        NameReads(from);
        assert names == [[Digit(from)]] + more;
        assert names[0] == [Digit(from)] && names[1..] == more;
        NamesRead(marked[from := true], days, from + 1);
      } else {
        assert names == more;
        NamesRead(marked, days, from + 1);
      }
    }
  }

  lemma {:induction false} NamesArePieces(days: seq<bool>, first: nat, sep: char)
    requires !IsDigit(sep) && first + |days| <= 7
    ensures Pieces(DayNames(days, first), sep)
    decreases |days|
  {
    if days != [] {
      NamesArePieces(days[1..], first + 1, sep);
    }
  }

  lemma {:induction false} JoinLacks(pieces: seq<string>, sep: char, c: char)
    requires sep != c && Pieces(pieces, c)
    ensures Lacks(Join(pieces, sep), c)
    decreases |pieces|
  {
    if |pieces| > 1 {
      JoinLacks(pieces[1..], sep, c);
    }
  }

  /** Joined weekdays read back as the same days, with either separator. */
  lemma DaysRead(days: Days, sep: char)
    requires !IsDigit(sep)
    ensures Mark(NO_DAYS, Tokens(DaysText(days, sep), sep)) == days
  {
    NamesArePieces(days, 0, sep);
    TokensOfJoin(DayNames(days, 0), sep);
    assert days[0..] == days;
    NamesRead(NO_DAYS, days, 0);
  }

  lemma DaysLack(days: Days, sep: char, c: char)
    requires sep != c && !IsDigit(c)
    ensures Lacks(DaysText(days, sep), c)
  {
    NamesArePieces(days, 0, c);
    JoinLacks(DayNames(days, 0), sep, c);
  }

  // ----- Entries read back -----

  lemma BothLack(s: string, t: string, c: char)
    requires Lacks(s, c) && Lacks(t, c)
    ensures Lacks(s + t, c)
  {
  }

  lemma TimeLacks(t: Time, c: char)
    requires c == ' ' || c == ';'
    ensures FullTime(t) != "" && Lacks(FullTime(t), c)
    ensures WriteTime(t) != "" && Lacks(WriteTime(t), c)
  {
  }

  lemma RangeLacks(r: Range, c: char)
    requires c == ' ' || c == ';'
    ensures FullRange(r) != "" && Lacks(FullRange(r), c)
    ensures WriteRange(r) != "" && Lacks(WriteRange(r), c)
  {
    TimeLacks(r.start, c);
    TimeLacks(r.end, c);
    BothLack("-", FullTime(r.end), c);
    BothLack(FullTime(r.start), "-" + FullTime(r.end), c);
    BothLack("-", WriteTime(r.end), c);
    BothLack(WriteTime(r.start), "-" + WriteTime(r.end), c);
  }

  lemma EntryIsPiece(e: Entry)
    ensures WriteEntry(e) != "" && Lacks(WriteEntry(e), ' ')
  {
    DaysLack(e.days, ',', ' ');
    RangeLacks(e.range, ' ');
    BothLack(";", WriteRange(e.range), ' ');
    BothLack(DaysText(e.days, ','), ";" + WriteRange(e.range), ' ');
  }

  lemma TokenParts(names: string, text: string)
    requires Lacks(names, ';')
    ensures var token := names + (";" + text);
            HasDays(token) && Word(token, ';') == names && RangeText(token) == text
  {
    WordStops(names, ";" + text, ';');
  }

  lemma EntryReads(e: Entry, all: Days)
    ensures HasDays(WriteEntry(e))
    ensures DaysOf(WriteEntry(e), all) == e.days && RangeText(WriteEntry(e)) == WriteRange(e.range)
  {
    DaysLack(e.days, ',', ';');
    TokenParts(DaysText(e.days, ','), WriteRange(e.range));
    DaysRead(e.days, ',');
  }

  lemma MorePieces(piece: string, pieces: seq<string>, sep: char)
    requires piece != "" && Lacks(piece, sep) && Pieces(pieces, sep)
    ensures Pieces([piece] + pieces, sep)
  {
  }

  lemma {:induction false} WrittenArePieces(es: seq<Entry>)
    ensures Pieces(WriteEntries(es), ' ') && |WriteEntries(es)| == |es|
    decreases |es|
  {
    if es != [] {
      EntryIsPiece(es[0]);
      WrittenArePieces(es[1..]);
      MorePieces(WriteEntry(es[0]), WriteEntries(es[1..]), ' ');
    }
  }

  lemma {:induction false} NoneOld(es: seq<Entry>)
    ensures !AnyOld(WriteEntries(es))
    decreases |es|
  {
    if es != [] {
      EntryReads(es[0], NO_DAYS);
      NoneOld(es[1..]);
      assert WriteEntries(es)[1..] == WriteEntries(es[1..]);
    }
  }

  ghost predicate Int32Entries(es: seq<Entry>) {
    forall i :: 0 <= i < |es| ==> Int32Range(es[i].range)
  }

  /** Every time fits the buffer it is written through. */
  ghost predicate AllShort(es: seq<Entry>) {
    forall i :: 0 <= i < |es| ==> Short(es[i].range)
  }

  lemma OneReads(e: Entry, all: Days)
    requires Int32Range(e.range)
    ensures |LoadOne(WriteEntry(e), all)| == 1
    ensures LoadOne(WriteEntry(e), all)[0] == e <==> Short(e.range)
  {
    EntryReads(e, all);
    RangeReadsIff(e.range);
  }

  lemma LoadMore(token: string, tokens: seq<string>, all: Days)
    ensures LoadEntries([token] + tokens, all) == LoadOne(token, all) + LoadEntries(tokens, all)
  {
  }

  lemma {:induction false} EntriesRead(es: seq<Entry>, all: Days)
    requires Int32Entries(es)
    ensures LoadEntries(WriteEntries(es), all) == es <==> AllShort(es)
    decreases |es|
  {
    if es != [] {
      OneReads(es[0], all);
      EntriesRead(es[1..], all);
      LoadMore(WriteEntry(es[0]), WriteEntries(es[1..]), all);
      ShortRest(es);
      var one := LoadOne(WriteEntry(es[0]), all);
      assert one == [one[0]];
      SameHead(one[0], LoadEntries(WriteEntries(es[1..]), all), es);
    }
  }

  lemma ShortRest(es: seq<Entry>)
    requires es != []
    ensures AllShort(es) <==> Short(es[0].range) && AllShort(es[1..])
  {
  }

  // ----- The buffers of the loader -----

  const LIST_CHARS := 1023
  const MAX_ENTRIES := 64
  const WEEKDAY_CHARS := 63
  const DAYS_CHARS := 127

  predicate GoodDay(token: string) {
    0 <= Atoi(token) < 7
  }

  /** The fixed buffers and arrays of the loader hold this configuration. */
  ghost predicate Fits(s: Store) {
    && |Join(s.times, ' ')| <= LIST_CHARS && |EntryTokens(s)| <= MAX_ENTRIES
    && (forall t :: t in EntryTokens(s) && HasDays(t) ==> |Word(t, ';')| <= WEEKDAY_CHARS)
    && |s.days| <= DAYS_CHARS && (forall t :: t in Tokens(s.days, ' ') ==> GoodDay(t))
  }

  function DayCount(days: seq<bool>): nat {
    if days == [] then 0 else (if days[0] then 1 else 0) + DayCount(days[1..])
  }

  function DaysChars(days: Days): nat {
    if DayCount(days) == 0 then 0 else 2 * DayCount(days) - 1
  }

  function TimeChars(t: Time): nat {
    var full := |Padded(t.hour)| + 1 + |Padded(t.min)|;
    if full <= TIME_CHARS then full else TIME_CHARS
  }

  /** Days and commas, a semicolon, and the two times with a dash between them. */
  function EntryChars(e: Entry): nat {
    DaysChars(e.days) + 1 + TimeChars(e.range.start) + 1 + TimeChars(e.range.end)
  }

  /** The written list: its entries and a blank between every two of them. */
  function ListChars(es: seq<Entry>): nat {
    if es == [] then 0
    else EntryChars(es[0]) + if |es| == 1 then 0 else 1 + ListChars(es[1..])
  }

  lemma {:induction false} NamesAreGood(days: seq<bool>, first: nat)
    requires first + |days| <= 7
    ensures forall t :: t in DayNames(days, first) ==> GoodDay(t) && |t| == 1
    ensures |DayNames(days, first)| == DayCount(days) <= |days|
    decreases |days|
  {
    if days != [] {
      NameReads(first);
      NamesAreGood(days[1..], first + 1);
    }
  }

  lemma {:induction false} SinglesJoined(pieces: seq<string>, sep: char)
    requires pieces != [] && forall t :: t in pieces ==> |t| == 1
    ensures |Join(pieces, sep)| == 2 * |pieces| - 1
    decreases |pieces|
  {
    if |pieces| > 1 {
      SinglesJoined(pieces[1..], sep);
    }
  }

  lemma DaysTextLength(days: Days, sep: char)
    ensures |DaysText(days, sep)| == DaysChars(days) <= 13
  {
    NamesAreGood(days, 0);
    if DayNames(days, 0) != [] {
      SinglesJoined(DayNames(days, 0), sep);
    }
  }

  lemma DaysFit(days: Days)
    ensures |DaysText(days, ' ')| <= DAYS_CHARS
    ensures forall t :: t in Tokens(DaysText(days, ' '), ' ') ==> GoodDay(t)
  {
    NamesAreGood(days, 0);
    DaysTextLength(days, ' ');
    NamesArePieces(days, 0, ' ');
    TokensOfJoin(DayNames(days, 0), ' ');
  }

  lemma EntryLength(e: Entry)
    ensures |WriteEntry(e)| == EntryChars(e)
  {
    DaysTextLength(e.days, ',');
  }

  lemma {:induction false} ListLength(es: seq<Entry>)
    ensures |Join(WriteEntries(es), ' ')| == ListChars(es)
    decreases |es|
  {
    if es != [] {
      EntryLength(es[0]);
      WrittenArePieces(es[1..]);
      ListLength(es[1..]);
      assert WriteEntries(es)[1..] == WriteEntries(es[1..]);
    }
  }

  lemma {:induction false} WordsFit(es: seq<Entry>)
    ensures forall t :: t in WriteEntries(es) ==> |Word(t, ';')| <= WEEKDAY_CHARS
    decreases |es|
  {
    if es != [] {
      DaysLack(es[0].days, ',', ';');
      TokenParts(DaysText(es[0].days, ','), WriteRange(es[0].range));
      DaysTextLength(es[0].days, ',');
      WordsFit(es[1..]);
    }
  }

  lemma {:induction false} LoadedCount(tokens: seq<string>, all: Days)
    ensures |LoadEntries(tokens, all)| <= |tokens|
    decreases |tokens|
  {
    if tokens != [] {
      LoadedCount(tokens[1..], all);
    }
  }

  // ----- Migration -----

  /** What is written in manual mode has no old-format entry left. */
  lemma WrittenIsNew(c: Config, s: Store)
    requires c.mode == 0
    ensures EntryTokens(Write(c, s)) == WriteEntries(c.times)
    ensures !OldFormat(Write(c, s))
  {
    WrittenArePieces(c.times);
    TokensOfJoin(WriteEntries(c.times), ' ');
    NoneOld(c.times);
  }

  /** What is written fits the loader's buffers exactly when the list is short enough. */
  lemma WrittenFitsIff(c: Config, s: Store)
    requires c.mode == 0
    ensures Fits(Write(c, s)) <==> ListChars(c.times) <= LIST_CHARS && |c.times| <= MAX_ENTRIES
  {
    WrittenIsNew(c, s);
    WrittenArePieces(c.times);
    ListLength(c.times);
    WordsFit(c.times);
    DaysFit(c.days);
  }

  /** A configuration that is written can be loaded, and is the same then, exactly when every
      time fits its buffer and the list fits the loader's. */
  lemma LoadOfWrite(c: Config, s: Store)
    requires c.mode == 0 && Int32Entries(c.times)
    ensures Fits(Write(c, s)) && Load(Write(c, s)) == c <==>
            AllShort(c.times) && ListChars(c.times) <= LIST_CHARS && |c.times| <= MAX_ENTRIES
  {
    WrittenFitsIff(c, s);
    WrittenIsNew(c, s);
    DaysRead(c.days, ' ');
    EntriesRead(c.times, c.days);
  }

  /** A store that fits still fits after the migration exactly when there was nothing to
      migrate or its entries fit with their days written out. */
  lemma MigratedFitsIff(s: Store)
    requires Fits(s) && s.mode == 0
    ensures Fits(Migrate(s)) <==> !OldFormat(s) || ListChars(Load(s).times) <= LIST_CHARS
  {
    LoadedCount(EntryTokens(s), LoadDays(s.days));
    WrittenFitsIff(Load(s), s);
  }

  /** In manual mode the migrated store can be loaded and gives the same configuration
      exactly when there was nothing to migrate, or every time fits its buffer and the list
      fits the loader's. */
  lemma MigrationKeepsConfigIff(s: Store)
    requires Fits(s) && s.mode == 0 && Int32Entries(Load(s).times)
    ensures Fits(Migrate(s)) && Load(Migrate(s)) == Load(s) <==>
            !OldFormat(s) || (AllShort(Load(s).times) && ListChars(Load(s).times) <= LIST_CHARS)
  {
    LoadedCount(EntryTokens(s), LoadDays(s.days));
    LoadOfWrite(Load(s), s);
  }

  /** What a migration needs: times and list fit where they are written. */
  ghost predicate Migratable(s: Store) {
    OldFormat(s) ==> AllShort(Load(s).times) && ListChars(Load(s).times) <= LIST_CHARS
  }

  /** So the verdict stays the same on every weekday at every minute. */
  lemma MigrationKeepsVerdict(s: Store, weekday: nat, minutes: int)
    requires Fits(s) && s.mode == 0 && Int32Entries(Load(s).times) && Migratable(s)
    requires weekday < 7
    ensures Fits(Migrate(s)) && (Manual(Load(Migrate(s)), weekday, minutes) <==> Manual(Load(s), weekday, minutes))
  {
    MigrationKeepsConfigIff(s);
  }

  /** One migration is enough: the next load, if the list fits it, finds no old-format entry
      and writes nothing. */
  lemma MigrationIsFinal(s: Store)
    requires Fits(s) && s.mode == 0
    ensures Fits(Migrate(s)) <==> !OldFormat(s) || ListChars(Load(s).times) <= LIST_CHARS
    ensures Fits(Migrate(s)) ==> !OldFormat(Migrate(s)) && Migrate(Migrate(s)) == Migrate(s)
  {
    MigratedFitsIff(s);
    if OldFormat(s) {
      WrittenIsNew(Load(s), s);
    }
  }

  /** In the other modes the list is not written, and the old format stays. */
  lemma OtherModesStayOld(s: Store)
    requires s.mode != 0
    ensures OldFormat(Migrate(s)) <==> OldFormat(s)
  {
  }
}
