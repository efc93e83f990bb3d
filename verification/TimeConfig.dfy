/** The daemon's code that loads, writes back and applies manual schedules. */
module TimeConfig {
  import opened Texts
  import opened TimeText
  import opened Migration

  /** `strchr`: the position of the character, or the length. */
  method FindChar(s: string, c: char) returns (i: nat)
    ensures i == |Word(s, c)|
  {
    i := 0;
    while i < |s| && s[i] != c
      invariant i <= |s| && Lacks(s[..i], c)
    {
      i := i + 1;
    }
    assert s == s[..i] + s[i..];
    WordStops(s[..i], s[i..], c);
  }

  /** Marks a day for every token. */
  method MarkTokens(text: string, sep: char) returns (days: Days)
    ensures days == Mark(NO_DAYS, Tokens(text, sep))
  {
    days := NO_DAYS;
    var token, pos := NextToken(text, 0, sep);
    assert text[0..] == text;
    while token != ""
      invariant pos <= |text|
      invariant Mark(days, Pending(token, text, pos, sep)) == Mark(NO_DAYS, Tokens(text, sep))
      decreases |text| - pos, |token|
    {
      var day := Atoi(token);
      PendingRest(token, text, pos, sep);
      if day >= 0 && day < 7 {
        days := days[day := true];
      }
      token, pos := NextToken(text, pos, sep);
    }
  }

  /** The token in hand and those still to come. */
  ghost function Pending(token: string, text: string, pos: nat, sep: char): seq<string>
    requires pos <= |text|
  {
    if token == "" then [] else [token] + Tokens(text[pos..], sep)
  }

  lemma PendingRest(token: string, text: string, pos: nat, sep: char)
    requires pos <= |text| && token != ""
    ensures Pending(token, text, pos, sep)[0] == token
    ensures Pending(token, text, pos, sep)[1..] == Tokens(text[pos..], sep)
  {
  }

  /** The list option as one text, as `af_uci_get_list_value` builds it. */
  method JoinList(list: seq<string>, sep: char) returns (text: string)
    ensures text == Join(list, sep)
  {
    text := "";
    for i := 0 to |list|
      invariant text == Join(list[..i], sep)
    {
      JoinMore(list[..i], list[i], sep);
      assert list[..i + 1] == list[..i] + [list[i]];
      if i > 0 {
        text := text + [sep];
      }
      text := text + list[i];
    }
    assert list[..|list|] == list;
  }

  lemma {:induction false} JoinMore(list: seq<string>, piece: string, sep: char)
    ensures Join(list + [piece], sep) == if list == [] then piece else Join(list, sep) + [sep] + piece
    decreases |list|
  {
    if |list| == 1 {
      assert (list + [piece])[1..] == [piece];
    } else if |list| > 1 {
      assert (list + [piece])[1..] == list[1..] + [piece];
      JoinMore(list[1..], piece, sep);
      var rest := Join(list[1..], sep);
      assert list[0] + ([sep] + (rest + [sep] + piece)) == list[0] + ([sep] + rest) + [sep] + piece;
    }
  }

  /** The names of the marked days with separators between them. */
  method BuildDays(days: Days, sep: char) returns (text: string)
    ensures text == DaysText(days, sep)
  {
    text := "";
    var first := true;
    for i := 0 to 7
      invariant text == Join(DayNames(days[..i], 0), sep)
      invariant first <==> DayNames(days[..i], 0) == []
    {
      NamesMore(days, i, 0);
      if days[i] {
        JoinMore(DayNames(days[..i], 0), [Digit(i)], sep);
        if !first {
          text := text + [sep];
        }
        text := text + [Digit(i)];
        first := false;
      } else {
        assert DayNames(days[..i + 1], 0) == DayNames(days[..i], 0);
      }
    }
    assert days[..7] == days;
  }

  lemma {:induction false} NamesMore(days: seq<bool>, i: nat, first: nat)
    requires i < |days| && first + |days| <= 7
    ensures DayNames(days[..i + 1], first)
         == DayNames(days[..i], first) + if days[i] then [[Digit(first + i)]] else []
    decreases i
  {
    if i == 0 {
      assert days[..1][1..] == [];
    } else {
      assert days[..i + 1][1..] == days[1..][..i] && days[..i][1..] == days[1..][..i - 1];
      NamesMore(days[1..], i - 1, first + 1);
    }
  }

  class Settings {
    var mode: int
    var days: Days
    var times: seq<Entry>
    var matchTime: bool

    ghost function Contents(): Config
      reads this
    {
      Config(mode, days, times)
    }

    constructor ()
      ensures Contents() == Config(0, NO_DAYS, [])
    {
      mode, days, times, matchTime := 0, NO_DAYS, [], false;
    }

    /** `af_load_time_config`: fills the configuration and tells whether an entry of the old
        format was seen. */
    method LoadFrom(s: Store) returns (old_: bool)
      requires Fits(s)
      modifies this
      ensures Contents() == Load(s) && old_ == OldFormat(s) && matchTime == old(matchTime)
    {
      mode := s.mode;
      days := MarkTokens(s.days, ' ');
      var text := JoinList(s.times, ' ');
      times, old_ := LoadList(text, days);
    }

    /** `apply_time_config_to_uci` on these options. */
    method WriteTo(s: Store) returns (s': Store)
      ensures s' == Write(Contents(), s)
    {
      var daysText := BuildDays(days, ' ');
      var list := s.times;
      if mode == 0 {
        list := WriteList(times);
      }
      s' := Store(mode, daysText, list);
    }

    /** `af_load_config`, as far as schedules go. */
    method LoadAndMigrate(s: Store) returns (s': Store)
      requires Fits(s)
      modifies this
      ensures Contents() == Load(s) && s' == Migrate(s)
    {
      var old_ := LoadFrom(s);
      if old_ {
        s' := WriteTo(s);
      } else {
        s' := s;
      }
    }

    /** `af_check_time_manual` */
    method CheckManual(weekday: nat, minutes: int) returns (inside: bool)
      requires weekday < 7
      modifies this`matchTime
      ensures inside == Manual(Contents(), weekday, minutes) && matchTime == inside
      ensures inside <==>
              (exists i :: 0 <= i < |times| && times[i].days[weekday]
                           && times[i].range.start.hour * 60 + times[i].range.start.min <= minutes
                           && minutes <= times[i].range.end.hour * 60 + times[i].range.end.min)
    {
      for i := 0 to |times|
        invariant forall k :: 0 <= k < i ==> !Covers(times[k], weekday, minutes)
      {
        if !times[i].days[weekday] {
          continue;
        }
        var start := times[i].range.start.hour * 60 + times[i].range.start.min;
        var end := times[i].range.end.hour * 60 + times[i].range.end.min;
        if minutes >= start && minutes <= end {
          assert Covers(times[i], weekday, minutes);
          matchTime := true;
          return true;
        }
      }
      matchTime := false;
      return false;
    }
  }

  /** One token: its weekdays, or the global ones, and its time. */
  method LoadToken(token: string, all: Days) returns (loaded: seq<Entry>, isNew: bool)
    ensures loaded == LoadOne(token, all) && isNew == HasDays(token)
  {
    var semicolon := FindChar(token, ';');
    var days, text := all, token;
    isNew := semicolon < |token|;
    if isNew {
      text := token[semicolon + 1..];
      days := MarkTokens(token[..semicolon], ',');
    }
    var range := ReadRange(text);
    if range.Parsed? {
      loaded := [Entry(days, range.value)];
    } else {
      loaded := [];
    }
  }

  /** The token loop of `af_load_time_config`. */
  method LoadList(text: string, all: Days) returns (times: seq<Entry>, anyOld: bool)
    ensures times == LoadEntries(Tokens(text, ' '), all) && anyOld == AnyOld(Tokens(text, ' '))
  {
    times, anyOld := [], false;
    assert text[0..] == text;
    var token, pos := NextToken(text, 0, ' ');
    ghost var tokens := Tokens(text, ' ');
    ghost var left := Pending(token, text, pos, ' ');
    while token != ""
      invariant pos <= |text| && left == Pending(token, text, pos, ' ')
      invariant times + LoadEntries(left, all) == LoadEntries(tokens, all)
      invariant anyOld || AnyOld(left) <==> AnyOld(tokens)
      decreases |text| - pos, |token|
    {
      PendingRest(token, text, pos, ' ');
      LoadStep(times, left, all);
      var loaded, isNew := LoadToken(token, all);
      times := times + loaded;
      if !isNew {
        anyOld := true;
      }
      token, pos := NextToken(text, pos, ' ');
      left := left[1..];
    }
  }

  lemma LoadStep(times: seq<Entry>, left: seq<string>, all: Days)
    requires left != []
    ensures times + LoadOne(left[0], all) + LoadEntries(left[1..], all) == times + LoadEntries(left, all)
    ensures AnyOld(left) <==> !HasDays(left[0]) || AnyOld(left[1..])
  {
  }

  /** The list loop of `apply_time_config_to_uci`. */
  method WriteList(times: seq<Entry>) returns (list: seq<string>)
    ensures list == WriteEntries(times)
  {
    list := [];
    assert times[0..] == times;
    for i := 0 to |times|
      invariant list + WriteEntries(times[i..]) == WriteEntries(times)
    {
      WriteStep(list, times, i);
      var entry := WriteOne(times[i]);
      list := list + [entry];
    }
  }

  lemma WriteStep(list: seq<string>, times: seq<Entry>, i: nat)
    requires i < |times|
    ensures list + [WriteEntry(times[i])] + WriteEntries(times[i + 1..]) == list + WriteEntries(times[i..])
  {
  }

  method WriteOne(e: Entry) returns (text: string)
    ensures text == WriteEntry(e)
  {
    var weekdays := BuildDays(e.days, ',');
    text := weekdays + (";" + (WriteTime(e.range.start) + ("-" + WriteTime(e.range.end))));
  }
}
