/** The display helpers of the detail and result screens: dates, truncated text, bedroom labels. */
module Formatters {
  import opened Wrappers
  import opened Text
  import opened JsValues
  import opened Listing

  const DateNotAvailable: string := "Date not available"

  /**
   * `formatDate(added)`: the placeholder when `added` or any of its day, month and
   * year is falsy, otherwise the three printed with a space between them; `None` when
   * the template literal throws converting one of them. It throws exactly for an
   * object whose three fields are truthy and one of which throws, and a printed date
   * has the three truthy fields behind it and splits into at least three words.
   */
  function FormatDate(added: JsValue): (r: Option<string>)
    ensures r.None? <==>
      added.Obj? &&
      Truthy(Get(added, "day")) && Truthy(Get(added, "month")) && Truthy(Get(added, "year")) &&
      (StringThrows(Get(added, "day")) || StringThrows(Get(added, "month")) || StringThrows(Get(added, "year")))
    ensures r.Some? && r.value != DateNotAvailable ==>
      Truthy(Get(added, "day")) && Truthy(Get(added, "month")) && Truthy(Get(added, "year")) &&
      |Words(r.value)| >= 3
  {
    var day := Get(added, "day");
    var month := Get(added, "month");
    var year := Get(added, "year");
    if !Truthy(added) || !Truthy(day) || !Truthy(month) || !Truthy(year) then Some(DateNotAvailable)
    else if StringThrows(day) || StringThrows(month) || StringThrows(year) then None
    else
      var d, m, y := ToJsString(day), ToJsString(month), ToJsString(year);
      JoinedWords(d, m, y);
      Some(d + " " + m + " " + y)
  }

  /** Space-separated words, as `s.split(' ')` gives them. */
  function Words(s: string): (r: seq<string>)
    ensures |r| >= 1
  {
    if s == [] then [""]
    else if s[0] == ' ' then [""] + Words(s[1..])
    else var w := Words(s[1..]); [[s[0]] + w[0]] + w[1..]
  }

  /** Three texts joined by spaces split into at least three words. */
  lemma JoinedWords(a: string, b: string, c: string)
    ensures |Words(a + " " + b + " " + c)| >= 3
  {
    WordsJoin(b, c);
    assert a + " " + b + " " + c == a + " " + (b + " " + c);
    WordsJoin(a, b + " " + c);
  }

  predicate NoSpace(s: string) {
    forall i :: 0 <= i < |s| ==> s[i] != ' '
  }

  lemma {:induction false} WordsOfWord(a: string)
    requires NoSpace(a)
    ensures Words(a) == [a]
  {
    if a != [] {
      WordsOfWord(a[1..]);
      assert [a[0]] + a[1..] == a;
    }
  }

  /** Splitting two texts joined by a space gives the words of each. */
  lemma {:induction false} WordsJoin(a: string, b: string)
    ensures Words(a + " " + b) == Words(a) + Words(b)
  {
    if a == [] {
      assert a + " " + b == [' '] + b;
      assert ([' '] + b)[1..] == b;
    } else {
      assert (a + " " + b)[1..] == a[1..] + " " + b;
      WordsJoin(a[1..], b);
    }
  }

  lemma PrintedIntNoSpace(n: int)
    ensures NoSpace(IntToString(n))
  {
    var s := IntToString(n);
    forall i | 0 <= i < |s| ensures s[i] != ' ' {
      if n < 0 {
        assert s == "-" + NatToString(-n);
        if i > 0 {
          assert s[i] == NatToString(-n)[i - 1];
        }
      }
    }
  }

  /** A listing's date object holds the date's day, month and year. */
  lemma DateFields(d: AddedDate)
    ensures Get(DateToJs(d), "day") == Num(d.day)
    ensures Get(DateToJs(d), "month") == Str(d.month)
    ensures Get(DateToJs(d), "year") == Num(d.year)
  {
  }

  lemma ThreeWords(a: string, b: string, c: string)
    requires NoSpace(a) && NoSpace(b) && NoSpace(c)
    ensures Words(a + " " + b + " " + c) == [a, b, c]
  {
    WordsOfWord(a);
    WordsOfWord(b);
    WordsOfWord(c);
    WordsJoin(b, c);
    assert a + " " + b + " " + c == a + " " + (b + " " + c);
    WordsJoin(a, b + " " + c);
  }

  /**
   * A listing's date prints as day, month and year separated by spaces, and
   * splitting the text on spaces reads the three back.
   */
  lemma FormatDateRoundTrip(d: AddedDate)
    requires d.day != 0 && d.month != "" && d.year != 0 && NoSpace(d.month)
    ensures FormatDate(DateToJs(d)) == Some(IntToString(d.day) + " " + d.month + " " + IntToString(d.year))
    ensures var w := Words(FormatDate(DateToJs(d)).value);
      |w| == 3 && ParseInt(w[0]) == Some(d.day) && w[1] == d.month && ParseInt(w[2]) == Some(d.year)
  {
    var day := IntToString(d.day);
    var year := IntToString(d.year);
    var text := day + " " + d.month + " " + year;
    DateFields(d);
    assert FormatDate(DateToJs(d)) == Some(text);
    PrintedIntNoSpace(d.day);
    PrintedIntNoSpace(d.year);
    ThreeWords(day, d.month, year);
    ParseIntRoundTrip(d.day);
    ParseIntRoundTrip(d.year);
  }

  /** A listing's date shows the placeholder exactly when its day, month or year is missing. */
  lemma FormatDatePlaceholderIff(d: AddedDate)
    ensures FormatDate(DateToJs(d)) == Some(DateNotAvailable) <==> d.day == 0 || d.month == "" || d.year == 0
  {
    var v := DateToJs(d);
    DateFields(d);
    if d.day != 0 && d.month != "" && d.year != 0 {
      var s := IntToString(d.day);
      var r := FormatDate(v).value;
      assert r == s + (" " + d.month + " " + IntToString(d.year));
      assert r[0] == s[0];
      if d.day < 0 {
        assert s[0] == '-';
      } else {
        assert IsDecDigit(s[0]);
      }
      assert DateNotAvailable[0] == 'D';
    }
  }

  /**
   * `truncateText(text, length)`: empty for missing or empty text, the text itself
   * when it fits, otherwise its first `length` characters (none when `length` is
   * negative, as `substring` clamps) followed by `...`.
   */
  function TruncateText(text: Option<string>, limit: int): (r: string)
    ensures text.None? || text.value == [] ==> r == []
    ensures text.Some? && |text.value| <= limit ==> r == text.value
    ensures text.Some? && text.value != [] && |text.value| > limit ==>
      var keep := if limit < 0 then 0 else limit;
      |r| == keep + 3 && r[..keep] == text.value[..keep] && r[keep..] == "..."
  {
    if text.None? || text.value == [] then ""
    else if |text.value| <= limit then text.value
    else text.value[..if limit < 0 then 0 else limit] + "..."
  }

  /** `truncateText(text)` with the default length of 100. */
  function TruncateDefault(text: Option<string>): (r: string)
    ensures |r| <= 103
  {
    TruncateText(text, 100)
  }

  /** Truncating what was already truncated to the same length changes nothing. */
  lemma TruncateIdempotent(text: Option<string>, limit: int)
    ensures TruncateText(Some(TruncateText(text, limit)), limit) == TruncateText(text, limit)
  {
    var r := TruncateText(text, limit);
    if text.Some? && text.value != [] && |text.value| > limit {
      var keep := if limit < 0 then 0 else limit;
      assert r != [] && |r| > limit;
      assert TruncateText(Some(r), limit) == r[..keep] + "...";
      assert r == r[..keep] + r[keep..];
    }
  }

  const FivePlusLabel: string := "5+ Bedrooms"
  const Bedroom: string := "Bedroom"

  /**
   * `getBedroomText(bedrooms)`: `5+ Bedrooms` exactly from five up; below five the
   * printed count and the word `Bedroom`, with a plural `s` for every count but one.
   * Reading the label back with `parseInt` gives the count, capped at five.
   */
  function BedroomText(bedrooms: int): (r: string)
    ensures r == FivePlusLabel <==> bedrooms >= 5
    ensures bedrooms < 5 ==> Words(r) == [IntToString(bedrooms), if bedrooms == 1 then Bedroom else Bedroom + "s"]
    ensures ParseInt(r) == Some(if bedrooms >= 5 then 5 else bedrooms)
    ensures |r| > 0 && (r[|r| - 1] == 's' <==> bedrooms != 1)
  {
    if bedrooms >= 5 then
      FivePlusCount();
      FivePlusLabel
    else
      var noun := if bedrooms != 1 then Bedroom + "s" else Bedroom;
      BedroomNouns();
      CountedNoun(bedrooms, noun);
      IntToString(bedrooms) + " " + noun
  }

  /** The capped label reads back as five. */
  lemma FivePlusCount()
    ensures ParseInt(FivePlusLabel) == Some(5)
  {
    var s := FivePlusLabel;
    ParseIntOfPrinted(5, s[1..]);
    assert IntToString(5) == [s[0]];
    assert [s[0]] + s[1..] == s;
  }

  /** Neither form of the noun holds a space, and only the plural ends in `s`. */
  lemma BedroomNouns()
    ensures NoSpace(Bedroom) && NoSpace(Bedroom + "s")
    ensures Bedroom != [] && Bedroom[|Bedroom| - 1] != 's'
  {
  }

  /**
   * A count below five printed before a space and a word: it reads back as the
   * count, is never the capped label, splits into the count and the word, and
   * ends as the word does.
   */
  lemma CountedNoun(n: int, noun: string)
    requires n < 5 && noun != [] && NoSpace(noun)
    ensures ParseInt(IntToString(n) + " " + noun) == Some(n)
    ensures IntToString(n) + " " + noun != FivePlusLabel
    ensures Words(IntToString(n) + " " + noun) == [IntToString(n), noun]
    ensures var t := IntToString(n) + " " + noun; t[|t| - 1] == noun[|noun| - 1]
  {
    assert IntToString(n) + " " + noun == IntToString(n) + (" " + noun);
    CountLabel(n, " " + noun);
    FivePlusCount();
    CountWords(n, noun);
  }

  /** A printed count, a space and a word split into the count and the word. */
  lemma CountWords(n: int, word: string)
    requires NoSpace(word)
    ensures Words(IntToString(n) + " " + word) == [IntToString(n), word]
  {
    PrintedIntNoSpace(n);
    WordsJoin(IntToString(n), word);
    WordsOfWord(IntToString(n));
    WordsOfWord(word);
  }

  /** A printed count followed by a space-led text reads back as the count. */
  lemma CountLabel(n: int, rest: string)
    requires rest != [] && rest[0] == ' '
    ensures ParseInt(IntToString(n) + rest) == Some(n)
  {
    ParseIntOfPrinted(n, rest);
  }
}
