/**
 * The text `json.dumps` gives to nested lists of strings, with non-ASCII characters escaped.
 * Different values have different texts, so sorting or comparing by text loses nothing.
 */
module JsonText {

  datatype Tree = Leaf(token: string) | Branch(items: seq<Tree>)

  const DIGITS: string := "0123456789abcdef"

  function HexDigit(n: nat): char
    requires n < 16
  {
    DIGITS[n]
  }

  function UnicodeEscape(n: nat): (r: string)
    requires n < 0x10000
    ensures |r| == 6
  {
    ['\\', 'u', HexDigit(n / 16 / 16 / 16), HexDigit(n / 16 / 16 % 16), HexDigit(n / 16 % 16), HexDigit(n % 16)]
  }

  function ShortEscape(c: char): string {
    if c == '"' then "\\\""
    else if c == '\\' then "\\\\"
    else if c == '\n' then "\\n"
    else if c == '\r' then "\\r"
    else if c == '\t' then "\\t"
    else if c as int == 8 then "\\b"
    else if c as int == 12 then "\\f"
    else ""
  }

  /** A character outside the printable ASCII range is written as one escape, or as a surrogate pair. */
  function Escape(c: char): string {
    var n := c as int;
    if ShortEscape(c) != "" then ShortEscape(c)
    else if ' ' <= c <= '~' then [c]
    else if n < 0x10000 then UnicodeEscape(n)
    else UnicodeEscape(0xd800 + (n - 0x10000) / 1024) + UnicodeEscape(0xdc00 + (n - 0x10000) % 1024)
  }

  function Quoted(s: string): string {
    if s == "" then "\"" else Escape(s[0]) + Quoted(s[1..])
  }

  /** The text of `t`, its list items separated by `separator`. */
  function Text(separator: string, t: Tree): string
    decreases t, 1, 0
  {
    match t
    case Leaf(s) => "\"" + Quoted(s)
    case Branch(_) => "[" + TextFrom(separator, t, 0)
  }

  function TextFrom(separator: string, t: Tree, k: nat): string
    requires t.Branch? && k <= |t.items|
    decreases t, 0, |t.items| - k
  {
    if k == |t.items| then "]"
    else (if k > 0 then separator else "") + Text(separator, t.items[k]) + TextFrom(separator, t, k + 1)
  }

  // ---------------------------------------------------------------- reading it back

  lemma HexDigitIsOneToOne(a: nat, b: nat)
    requires a < 16 && b < 16 && HexDigit(a) == HexDigit(b)
    ensures a == b
  {
    assert forall i, j | 0 <= i < j < 16 :: DIGITS[i] != DIGITS[j];
  }

  lemma UnicodeEscapeIsOneToOne(a: nat, b: nat)
    requires a < 0x10000 && b < 0x10000 && UnicodeEscape(a) == UnicodeEscape(b)
    ensures a == b
  {
    hide HexDigit;
    var x, y := UnicodeEscape(a), UnicodeEscape(b);
    assert x[2] == y[2] && x[3] == y[3] && x[4] == y[4] && x[5] == y[5];
    HexDigitIsOneToOne(a / 16 / 16 / 16, b / 16 / 16 / 16);
    HexDigitIsOneToOne(a / 16 / 16 % 16, b / 16 / 16 % 16);
    HexDigitIsOneToOne(a / 16 % 16, b / 16 % 16);
    HexDigitIsOneToOne(a % 16, b % 16);
  }

  lemma SplitEqual(a: string, b: string, x: string, y: string)
    requires |a| == |b| && a + x == b + y
    ensures a == b && x == y
  {
    assert a == (a + x)[..|a|] && b == (b + y)[..|b|];
    assert x == (a + x)[|a|..] && y == (b + y)[|b|..];
  }

  /** How an escaped character starts tells how it goes on. */
  lemma EscapeStart(c: char)
    ensures Escape(c) != "" && Escape(c)[0] != '"'
    ensures Escape(c)[0] == '\\' ==> |Escape(c)| >= 2
    ensures Escape(c)[0] != '\\' ==> Escape(c) == [c]
    ensures Escape(c)[0] == '\\' && Escape(c)[1] != 'u' ==> Escape(c) == ShortEscape(c) && |Escape(c)| == 2
    ensures Escape(c)[0] == '\\' && Escape(c)[1] == 'u' ==> ShortEscape(c) == "" && !(' ' <= c <= '~')
  {
  }

  lemma ShortEscapeIsOneToOne(c: char, d: char)
    requires ShortEscape(c) == ShortEscape(d) != ""
    ensures c == d
  {
    assert ShortEscape(c)[1] == ShortEscape(d)[1];
  }

  /** The number in the first escape of a character that needs one. */
  function Lead(n: nat): nat {
    if n < 0x10000 then n else 0xd800 + (n - 0x10000) / 1024
  }

  /** What follows that first escape. */
  function Trail(n: nat): string
    requires n < 0x110000
  {
    if n < 0x10000 then "" else UnicodeEscape(0xdc00 + (n - 0x10000) % 1024)
  }

  lemma LongEscapeParts(c: char, x: string)
    requires ShortEscape(c) == "" && !(' ' <= c <= '~')
    ensures Lead(c as int) < 0x10000 && c as int < 0x110000
    ensures Escape(c) + x == UnicodeEscape(Lead(c as int)) + (Trail(c as int) + x)
  {
    hide UnicodeEscape;
    assert c as int < 0x10000 ==> Trail(c as int) + x == x;
  }

  /** Surrogates are not characters, so the first escape tells whether there is a second. */
  lemma LeadsAgree(c: char, d: char)
    requires Lead(c as int) == Lead(d as int)
    ensures c as int < 0x10000 <==> d as int < 0x10000
    ensures c as int < 0x10000 ==> c == d
    ensures c as int >= 0x10000 && (c as int - 0x10000) % 1024 == (d as int - 0x10000) % 1024 ==> c == d
  {
  }

  lemma LongEscapeReadsBack(c: char, d: char, x: string, y: string)
    requires ShortEscape(c) == "" && !(' ' <= c <= '~') && ShortEscape(d) == "" && !(' ' <= d <= '~')
    requires Escape(c) + x == Escape(d) + y
    ensures c == d && x == y
  {
    hide UnicodeEscape, Escape, ShortEscape, Lead;
    var m, n := c as int, d as int;
    LongEscapeParts(c, x);
    LongEscapeParts(d, y);
    SplitEqual(UnicodeEscape(Lead(m)), UnicodeEscape(Lead(n)), Trail(m) + x, Trail(n) + y);
    UnicodeEscapeIsOneToOne(Lead(m), Lead(n));
    LeadsAgree(c, d);
    SplitEqual(Trail(m), Trail(n), x, y);
    if m >= 0x10000 {
      UnicodeEscapeIsOneToOne(0xdc00 + (m - 0x10000) % 1024, 0xdc00 + (n - 0x10000) % 1024);
    }
  }

  lemma EscapeReadsBack(c: char, d: char, x: string, y: string)
    requires Escape(c) + x == Escape(d) + y
    ensures c == d && x == y
  {
    hide Escape, ShortEscape;
    EscapeStart(c);
    EscapeStart(d);
    var whole := Escape(c) + x;
    assert whole[0] == Escape(c)[0] == Escape(d)[0];
    if whole[0] != '\\' {
      SplitEqual([c], [d], x, y);
    } else {
      assert whole[1] == Escape(c)[1] == Escape(d)[1];
      if whole[1] == 'u' {
        LongEscapeReadsBack(c, d, x, y);
      } else {
        SplitEqual(Escape(c), Escape(d), x, y);
        ShortEscapeIsOneToOne(c, d);
      }
    }
  }

  lemma {:induction false} QuotedReadsBack(a: string, b: string, x: string, y: string)
    requires Quoted(a) + x == Quoted(b) + y
    ensures a == b && x == y
  {
    hide Escape;
    if a != "" { EscapeStart(a[0]); }
    if b != "" { EscapeStart(b[0]); }
    var whole := Quoted(a) + x;
    if a == "" || b == "" {
      assert whole[0] == Quoted(a)[0] == Quoted(b)[0];
      SplitEqual("\"", "\"", x, y);
    } else {
      assert Quoted(a) + x == Escape(a[0]) + (Quoted(a[1..]) + x);
      assert Quoted(b) + y == Escape(b[0]) + (Quoted(b[1..]) + y);
      EscapeReadsBack(a[0], b[0], Quoted(a[1..]) + x, Quoted(b[1..]) + y);
      QuotedReadsBack(a[1..], b[1..], x, y);
      assert a == [a[0]] + a[1..] && b == [b[0]] + b[1..];
    }
  }

  /** Texts are prefix-free: a text followed by anything determines both the value and what follows. */
  lemma {:induction false} TextReadsBack(separator: string, t: Tree, u: Tree, x: string, y: string)
    requires separator != "" && separator[0] == ',' && Text(separator, t) + x == Text(separator, u) + y
    ensures t == u && x == y
    decreases t, 1, 0
  {
    hide Quoted, TextFrom;
    var whole := Text(separator, t) + x;
    assert whole[0] == Text(separator, t)[0] == Text(separator, u)[0];
    match t
    case Leaf(a) =>
      var b := u.token;
      assert Quoted(a) + x == whole[1..] && Quoted(b) + y == whole[1..];
      QuotedReadsBack(a, b, x, y);
    case Branch(_) =>
      assert TextFrom(separator, t, 0) + x == whole[1..] && TextFrom(separator, u, 0) + y == whole[1..];
      ItemsReadBack(separator, t, u, 0, x, y);
  }

  lemma {:induction false} ItemsReadBack(separator: string, t: Tree, u: Tree, k: nat, x: string, y: string)
    requires separator != "" && separator[0] == ','
    requires t.Branch? && u.Branch? && k <= |t.items| && k <= |u.items| && t.items[..k] == u.items[..k]
    requires TextFrom(separator, t, k) + x == TextFrom(separator, u, k) + y
    ensures t == u && x == y
    decreases t, 0, |t.items| - k
  {
    hide Text;
    var whole := TextFrom(separator, t, k) + x;
    FirstOfItems(separator, t, k);
    FirstOfItems(separator, u, k);
    assert whole[0] == TextFrom(separator, t, k)[0] == TextFrom(separator, u, k)[0];
    if k == |t.items| {
      assert t.items == t.items[..k] && u.items == u.items[..k];
      SplitEqual("]", "]", x, y);
    } else {
      var before := if k > 0 then separator else "";
      var xs, ys := TextFrom(separator, t, k + 1) + x, TextFrom(separator, u, k + 1) + y;
      assert whole == before + (Text(separator, t.items[k]) + xs);
      assert whole == before + (Text(separator, u.items[k]) + ys);
      SplitEqual(before, before, Text(separator, t.items[k]) + xs, Text(separator, u.items[k]) + ys);
      TextReadsBack(separator, t.items[k], u.items[k], xs, ys);
      assert t.items[..k + 1] == t.items[..k] + [t.items[k]] && u.items[..k + 1] == u.items[..k] + [u.items[k]];
      ItemsReadBack(separator, t, u, k + 1, x, y);
    }
  }

  /** Only the end of the list starts with a closing bracket. */
  lemma FirstOfItems(separator: string, t: Tree, k: nat)
    requires separator != "" && separator[0] == ',' && t.Branch? && k <= |t.items|
    ensures TextFrom(separator, t, k) != ""
    ensures TextFrom(separator, t, k)[0] == ']' <==> k == |t.items|
  {
    if k < |t.items| {
      var before, text := if k > 0 then separator else "", Text(separator, t.items[k]);
      assert text != "" && text[0] != ']';
      assert TextFrom(separator, t, k) == before + (text + TextFrom(separator, t, k + 1));
    }
  }

  lemma TextIsOneToOne(separator: string, t: Tree, u: Tree)
    requires separator != "" && separator[0] == ',' && Text(separator, t) == Text(separator, u)
    ensures t == u
  {
    TextReadsBack(separator, t, u, "", "");
  }
}
