/** A JSON reader for arrays and strings, as sections 2, 5 and 7 of RFC 8259 describe them. */
module JsonParse {
  import opened Sequences
  import opened JsonText

  function SkipBlank(s: string): (r: string)
    ensures |r| <= |s|
  {
    if s != "" && (s[0] == ' ' || s[0] == '\t' || s[0] == '\n' || s[0] == '\r') then SkipBlank(s[1..]) else s
  }

  function HexValue(c: char): Option<nat> {
    if '0' <= c <= '9' then Some(c as int - '0' as int)
    else if 'a' <= c <= 'f' then Some(c as int - 'a' as int + 10)
    else if 'A' <= c <= 'F' then Some(c as int - 'A' as int + 10)
    else None
  }

  /** The number that four hexadecimal digits make. */
  function HexWord(s: string): Option<nat> {
    if |s| < 4 then None
    else
      match (HexValue(s[0]), HexValue(s[1]), HexValue(s[2]), HexValue(s[3]))
      case (Some(a), Some(b), Some(c), Some(d)) => Some(4096 * a + 256 * b + 16 * c + d)
      case _ => None
  }

  function ShortUnescape(c: char): Option<char> {
    if c == '"' || c == '\\' || c == '/' then Some(c)
    else if c == 'b' then Some(8 as char)
    else if c == 'f' then Some(12 as char)
    else if c == 'n' then Some('\n')
    else if c == 'r' then Some('\r')
    else if c == 't' then Some('\t')
    else None
  }

  /** One character of a string and how many characters it was written with. */
  function OneChar(s: string): (r: Option<(char, nat)>)
    ensures r.Some? ==> 1 <= r.value.1 <= |s|
  {
    if s == "" || s[0] == '"' || s[0] as int < 32 then None
    else if s[0] != '\\' then Some((s[0], 1))
    else if |s| < 2 then None
    else if s[1] != 'u' then
      if ShortUnescape(s[1]).Some? then Some((ShortUnescape(s[1]).value, 2)) else None
    else
      match HexWord(s[2..])
      case None => None
      case Some(v) =>
        if v < 0xd800 || 0xe000 <= v < 0x10000 then Some((v as char, 6))
        else if v < 0xdc00 && |s| >= 8 && s[6] == '\\' && s[7] == 'u' then LowHalf(v, s)
        else None
  }

  /** A surrogate pair. */
  function LowHalf(v: nat, s: string): (r: Option<(char, nat)>)
    requires 0xd800 <= v < 0xdc00 && |s| >= 8
    ensures r.Some? ==> r.value.1 == 12 <= |s|
  {
    match HexWord(s[8..])
    case None => None
    case Some(w) =>
      if 0xdc00 <= w < 0xe000 then Some(((0x10000 + (v - 0xd800) * 1024 + (w - 0xdc00)) as char, 12)) else None
  }

  /** The rest of a string behind its opening quote, and what follows it. */
  function ParseChars(s: string): (r: Option<(string, string)>)
    ensures r.Some? ==> |r.value.1| < |s|
  {
    if s != "" && s[0] == '"' then Some(("", s[1..]))
    else
      match OneChar(s)
      case None => None
      case Some((c, n)) =>
        match ParseChars(s[n..])
        case None => None
        case Some((chars, rest)) => Some(([c] + chars, rest))
  }

  function ParseValue(s: string): (r: Option<(Tree, string)>)
    ensures r.Some? ==> |r.value.1| < |s|
    decreases |s|, 0
  {
    var s := SkipBlank(s);
    if s == "" then None
    else if s[0] == '"' then
      match ParseChars(s[1..])
      case None => None
      case Some((chars, rest)) => Some((Leaf(chars), rest))
    else if s[0] == '[' then
      var inner := SkipBlank(s[1..]);
      if inner != "" && inner[0] == ']' then Some((Branch([]), inner[1..]))
      else
        match ParseItems(inner)
        case None => None
        case Some((items, rest)) => Some((Branch(items), rest))
    else None
  }

  /** One or more values between commas, up to the closing bracket. */
  function ParseItems(s: string): (r: Option<(seq<Tree>, string)>)
    ensures r.Some? ==> |r.value.1| < |s|
    decreases |s|, 1
  {
    match ParseValue(s)
    case None => None
    case Some((item, rest)) =>
      var after := SkipBlank(rest);
      if after == "" then None
      else if after[0] == ']' then Some(([item], after[1..]))
      else if after[0] == ',' then
        match ParseItems(after[1..])
        case None => None
        case Some((items, rest)) => Some(([item] + items, rest))
      else None
  }

  // ---------------------------------------------------------------- it reads what was written

  lemma HexDigitValue(n: nat)
    requires n < 16
    ensures HexValue(HexDigit(n)) == Some(n)
  {
  }

  lemma UnicodeEscapeValue(n: nat, rest: string)
    requires n < 0x10000
    ensures HexWord((UnicodeEscape(n) + rest)[2..]) == Some(n)
  {
    hide HexValue, HexDigit;
    var s := (UnicodeEscape(n) + rest)[2..];
    HexDigitValue(n / 16 / 16 / 16);
    HexDigitValue(n / 16 / 16 % 16);
    HexDigitValue(n / 16 % 16);
    HexDigitValue(n % 16);
    assert s[0] == HexDigit(n / 16 / 16 / 16) && s[1] == HexDigit(n / 16 / 16 % 16);
    assert s[2] == HexDigit(n / 16 % 16) && s[3] == HexDigit(n % 16);
  }

  lemma EscapeStarts(n: nat, rest: string)
    requires n < 0x10000
    ensures var s := UnicodeEscape(n) + rest; |s| >= 6 && s[0] == '\\' && s[1] == 'u' && s[6..] == rest
  {
  }

  lemma OneShort(c: char, rest: string)
    requires ShortEscape(c) != ""
    ensures OneChar(ShortEscape(c) + rest) == Some((c, |ShortEscape(c)|))
  {
  }

  lemma OneLong(c: char, rest: string)
    requires ShortEscape(c) == "" && !(' ' <= c <= '~')
    ensures OneChar(Escape(c) + rest) == Some((c, |Escape(c)|))
  {
    hide HexWord, UnicodeEscape, HexDigit;
    var n := c as int;
    if n < 0x10000 {
      UnicodeEscapeValue(n, rest);
      EscapeStarts(n, rest);
    } else {
      var hi, lo := 0xd800 + (n - 0x10000) / 1024, 0xdc00 + (n - 0x10000) % 1024;
      var s := Escape(c) + rest;
      assert s == UnicodeEscape(hi) + (UnicodeEscape(lo) + rest);
      UnicodeEscapeValue(hi, UnicodeEscape(lo) + rest);
      EscapeStarts(hi, UnicodeEscape(lo) + rest);
      UnicodeEscapeValue(lo, rest);
      EscapeStarts(lo, rest);
      assert s[6..] == UnicodeEscape(lo) + rest;
      assert s[6] == '\\' && s[7] == 'u' && s[8..] == s[6..][2..];
    }
  }

  lemma OneEscaped(c: char, rest: string)
    ensures OneChar(Escape(c) + rest) == Some((c, |Escape(c)|)) && Escape(c) != "" && Escape(c)[0] != '"'
  {
    EscapeStart(c);
    if ShortEscape(c) != "" {
      OneShort(c, rest);
    } else if ' ' <= c <= '~' {
      assert Escape(c) == [c];
    } else {
      OneLong(c, rest);
    }
  }

  lemma {:induction false} CharsReadBack(s: string, rest: string)
    ensures ParseChars(Quoted(s) + rest) == Some((s, rest))
  {
    hide Escape, OneChar;
    if s == "" {
      assert (Quoted(s) + rest)[1..] == rest;
    } else {
      var more := Quoted(s[1..]) + rest;
      var text := Quoted(s) + rest;
      assert text == Escape(s[0]) + more;
      OneEscaped(s[0], more);
      assert text[|Escape(s[0])|..] == more && text[0] == Escape(s[0])[0];
      CharsReadBack(s[1..], rest);
      assert [s[0]] + s[1..] == s;
    }
  }

  /** A comma and blanks. */
  predicate Separator(separator: string) {
    separator != "" && separator[0] == ',' && forall k | 1 <= k < |separator| :: separator[k] == ' '
  }

  predicate Spaces(s: string) {
    forall k | 0 <= k < |s| :: s[k] == ' '
  }

  lemma {:induction false} SkipLeading(blanks: string, s: string)
    requires Spaces(blanks)
    requires s != "" && s[0] != ' ' && s[0] != '\t' && s[0] != '\n' && s[0] != '\r'
    ensures SkipBlank(blanks + s) == s
  {
    if blanks == "" {
      assert blanks + s == s;
    } else {
      assert (blanks + s)[1..] == blanks[1..] + s;
      SkipLeading(blanks[1..], s);
    }
  }

  lemma TextStarts(separator: string, t: Tree)
    ensures Text(separator, t) != "" && (Text(separator, t)[0] == '"' || Text(separator, t)[0] == '[')
  {
  }

  /** Reading the text of a value, behind any blanks and before anything else, gives the value. */
  lemma {:induction false} TextParses(separator: string, blanks: string, t: Tree, rest: string)
    requires Separator(separator) && Spaces(blanks)
    ensures ParseValue(blanks + (Text(separator, t) + rest)) == Some((t, rest))
    decreases t, 1, 0
  {
    hide Quoted, TextFrom, ParseChars, SkipBlank;
    var text := Text(separator, t) + rest;
    TextStarts(separator, t);
    SkipLeading(blanks, text);
    match t
    case Leaf(s) =>
      assert text[1..] == Quoted(s) + rest;
      CharsReadBack(s, rest);
    case Branch(items) =>
      assert text[1..] == TextFrom(separator, t, 0) + rest;
      FirstOfItems(separator, t, 0);
      ItemsStart(separator, t);
      SkipLeading("", text[1..]);
      assert "" + text[1..] == text[1..];
      if items == [] {
        EmptyItems(separator, t);
        assert text[1..][1..] == rest;
      } else {
        ItemAndRest(separator, "", t, 0, rest);
        ItemsParse(separator, "", t, 0, rest);
        assert items[0..] == items;
      }
  }

  lemma EmptyItems(separator: string, t: Tree)
    requires t.Branch? && t.items == []
    ensures TextFrom(separator, t, 0) == "]"
  {
  }

  lemma ItemsStart(separator: string, t: Tree)
    requires t.Branch?
    ensures var s := TextFrom(separator, t, 0); s != "" && (s[0] == '"' || s[0] == '[' || s[0] == ']')
  {
    if t.items != [] {
      TextStarts(separator, t.items[0]);
      assert TextFrom(separator, t, 0) == Text(separator, t.items[0]) + TextFrom(separator, t, 1);
    }
  }

  lemma ParseMore(s: string, item: Tree, after: string, items: seq<Tree>, rest: string)
    requires ParseValue(s) == Some((item, after)) && SkipBlank(after) == after && after != "" && after[0] == ','
    requires ParseItems(after[1..]) == Some((items, rest))
    ensures ParseItems(s) == Some(([item] + items, rest))
  {
    hide ParseValue, SkipBlank;
  }

  lemma ParseLast(s: string, item: Tree, after: string)
    requires ParseValue(s) == Some((item, after)) && SkipBlank(after) == after && after != "" && after[0] == ']'
    ensures ParseItems(s) == Some(([item], after[1..]))
  {
    hide ParseValue, SkipBlank;
  }

  /** The text from item `k` on, taken apart. */
  lemma ItemAndRest(separator: string, blanks: string, t: Tree, k: nat, rest: string)
    requires Separator(separator) && t.Branch? && k < |t.items|
    requires blanks == if k > 0 then separator[1..] else ""
    ensures var s := TextFrom(separator, t, k) + rest;
            && (k > 0 ==> |s| > 0 && s[0] == ',')
            && (if k > 0 then s[1..] else s) ==
               blanks + (Text(separator, t.items[k]) + (TextFrom(separator, t, k + 1) + rest))
  {
    hide Text;
    var before := if k > 0 then separator else "";
    var item, after := Text(separator, t.items[k]), TextFrom(separator, t, k + 1) + rest;
    assert TextFrom(separator, t, k) + rest == before + (item + after);
  }

  /** From item `k` on, behind some blanks. */
  lemma {:induction false} ItemsParse(separator: string, blanks: string, t: Tree, k: nat, rest: string)
    requires Separator(separator) && Spaces(blanks) && t.Branch? && k < |t.items|
    ensures ParseItems(blanks + (Text(separator, t.items[k]) + (TextFrom(separator, t, k + 1) + rest))) ==
            Some((t.items[k..], rest))
    decreases t, 0, |t.items| - k
  {
    hide Text, TextFrom, SkipBlank, ParseValue, ParseItems, Separator, Spaces;
    var after := TextFrom(separator, t, k + 1) + rest;
    var s := blanks + (Text(separator, t.items[k]) + after);
    TextParses(separator, blanks, t.items[k], after);
    if k + 1 < |t.items| {
      MoreFollows(separator, t, k + 1, rest);
      ItemsParse(separator, separator[1..], t, k + 1, rest);
      ParseMore(s, t.items[k], after, t.items[k + 1..], rest);
      assert t.items[k..] == [t.items[k]] + t.items[k + 1..];
    } else {
      LastItem(separator, t);
      NothingSkipped(after);
      assert after[1..] == rest;
      ParseLast(s, t.items[k], after);
      assert t.items[k..] == [t.items[k]];
    }
  }

  /** What stands before a further item: a comma, and then the item behind the separator's blanks. */
  lemma MoreFollows(separator: string, t: Tree, k: nat, rest: string)
    requires Separator(separator) && t.Branch? && 0 < k < |t.items|
    ensures separator != "" && Spaces(separator[1..])
    ensures var after := TextFrom(separator, t, k) + rest;
            && after != "" && after[0] == ',' && SkipBlank(after) == after
            && after[1..] == separator[1..] + (Text(separator, t.items[k]) + (TextFrom(separator, t, k + 1) + rest))
  {
    hide Text;
    ItemAndRest(separator, separator[1..], t, k, rest);
    NothingSkipped(TextFrom(separator, t, k) + rest);
  }

  lemma NothingSkipped(s: string)
    requires s != "" && s[0] != ' ' && s[0] != '\t' && s[0] != '\n' && s[0] != '\r'
    ensures SkipBlank(s) == s
  {
  }

  lemma LastItem(separator: string, t: Tree)
    requires t.Branch?
    ensures TextFrom(separator, t, |t.items|) == "]"
  {
  }

  /** The text of a value is JSON for it. */
  lemma TextIsJson(separator: string, t: Tree)
    requires separator == "," || separator == ", "
    ensures ParseValue(Text(separator, t)) == Some((t, ""))
  {
    hide Text, ParseValue;
    TextParses(separator, "", t, "");
    assert "" + (Text(separator, t) + "") == Text(separator, t);
  }
}
