/**
 * Query-string encoding: `urllib.parse.quote_plus` with its defaults
 * (letters, digits and `_.-~` are kept, a space becomes `+`, every other
 * character becomes `%XX` escapes of its UTF-8 bytes, upper-case hex), a
 * decoder that undoes it, and splitting/joining on a separator character.
 */
module UrlEncoding {
  import opened Wrappers

  predicate Unreserved(c: char) {
    ('A' <= c <= 'Z') || ('a' <= c <= 'z') || ('0' <= c <= '9') || c == '_' || c == '.' || c == '-' || c == '~'
  }

  function HexDigit(n: int): (c: char)
    requires 0 <= n < 16
    ensures ('0' <= c <= '9') || ('A' <= c <= 'F')
  {
    if n < 10 then ('0' as int + n) as char else ('A' as int + n - 10) as char
  }

  function HexValue(c: char): Option<int> {
    if '0' <= c <= '9' then Some(c as int - '0' as int)
    else if 'A' <= c <= 'F' then Some(c as int - 'A' as int + 10)
    else if 'a' <= c <= 'f' then Some(c as int - 'a' as int + 10)
    else None
  }

  lemma HexValueOfDigit(n: int)
    requires 0 <= n < 16
    ensures HexValue(HexDigit(n)) == Some(n)
  {
  }

  predicate IsByte(b: int) { 0 <= b < 256 }

  /** The UTF-8 encoding of one Unicode scalar value. */
  function Utf8(c: char): (bytes: seq<int>)
    ensures 1 <= |bytes| <= 4 && forall b <- bytes :: IsByte(b)
  {
    var v := c as int;
    var q1, r1 := v / 64, v % 64;
    var q2, r2 := q1 / 64, q1 % 64;
    var q3, r3 := q2 / 64, q2 % 64;
    if v < 0x80 then [v]
    else if v < 0x800 then [0xC0 + q1, 0x80 + r1]
    else if v < 0x10000 then [0xE0 + q2, 0x80 + r2, 0x80 + r1]
    else [0xF0 + q3, 0x80 + r3, 0x80 + r2, 0x80 + r1]
  }

  function PercentEscape(bytes: seq<int>): (s: string)
    requires forall b <- bytes :: IsByte(b)
    ensures |s| == 3 * |bytes|
  {
    if bytes == [] then []
    else
      assert IsByte(bytes[0]) by { assert bytes[0] in bytes; }
      ['%', HexDigit(bytes[0] / 16), HexDigit(bytes[0] % 16)] + PercentEscape(bytes[1..])
  }

  function QuoteChar(c: char): (s: string)
    ensures |s| >= 1
  {
    if Unreserved(c) then [c]
    else if c == ' ' then "+"
    else PercentEscape(Utf8(c))
  }

  /** `quote_plus(s)` */
  function Quote(s: string): string {
    if s == [] then [] else QuoteChar(s[0]) + Quote(s[1..])
  }

  // ---- decoding ----

  /** The byte written as `%XX` at position `i` of `t`, if there is one. */
  function ByteAt(t: string, i: nat): Option<int> {
    if i + 3 <= |t| && t[i] == '%' then
      match (HexValue(t[i + 1]), HexValue(t[i + 2]))
      case (Some(h), Some(l)) => Some(16 * h + l)
      case _ => None
    else None
  }

  /** The payload of a UTF-8 continuation byte escaped at position `i`. */
  function ContinuationAt(t: string, i: nat): Option<int> {
    match ByteAt(t, i)
    case Some(b) => if 0x80 <= b < 0xC0 then Some(b - 0x80) else None
    case None => None
  }

  function ScalarChar(v: int): Option<char> {
    if (0 <= v < 0xD800) || (0xE000 <= v < 0x110000) then Some(v as char) else None
  }

  /** The value of the 1 to 4 escaped bytes starting at `t[0]`, with their length in characters. */
  function DecodeEscaped(t: string): Option<(char, nat)> {
    match ByteAt(t, 0)
    case None => None
    case Some(b0) =>
      if b0 < 0x80 then
        match ScalarChar(b0) case Some(c) => Some((c, 3)) case None => None
      else if 0xC0 <= b0 < 0xE0 then
        match ContinuationAt(t, 3)
        case Some(c1) =>
          (match ScalarChar((b0 - 0xC0) * 64 + c1) case Some(c) => Some((c, 6)) case None => None)
        case None => None
      else if 0xE0 <= b0 < 0xF0 then
        match (ContinuationAt(t, 3), ContinuationAt(t, 6))
        case (Some(c1), Some(c2)) =>
          (match ScalarChar(((b0 - 0xE0) * 64 + c1) * 64 + c2) case Some(c) => Some((c, 9)) case None => None)
        case _ => None
      else if 0xF0 <= b0 < 0xF8 then
        match (ContinuationAt(t, 3), ContinuationAt(t, 6), ContinuationAt(t, 9))
        case (Some(c1), Some(c2), Some(c3)) =>
          (match ScalarChar((((b0 - 0xF0) * 64 + c1) * 64 + c2) * 64 + c3) case Some(c) => Some((c, 12)) case None => None)
        case _ => None
      else None
  }

  /** The first character that `t` encodes and how many characters of `t` encode it. */
  function DecodeFirst(t: string): (r: Option<(char, nat)>)
    requires t != []
    ensures r.Some? ==> 1 <= r.value.1 <= |t|
  {
    if t[0] == '+' then Some((' ', 1))
    else if t[0] != '%' then Some((t[0], 1))
    else
      match DecodeEscaped(t)
      case Some((c, n)) => if 1 <= n <= |t| then Some((c, n)) else None
      case None => None
  }

  /** `unquote_plus`, failing on a malformed escape instead of substituting U+FFFD. */
  function Unquote(t: string): Option<string>
    decreases |t|
  {
    if t == [] then Some([])
    else
      match DecodeFirst(t)
      case None => None
      case Some((c, n)) =>
        match Unquote(t[n..])
        case Some(rest) => Some([c] + rest)
        case None => None
  }

  lemma ByteAtEscape(b: int, rest: string)
    requires IsByte(b)
    ensures ByteAt(['%', HexDigit(b / 16), HexDigit(b % 16)] + rest, 0) == Some(b)
  {
    HexValueOfDigit(b / 16);
    HexValueOfDigit(b % 16);
  }

  /** Every byte of an escape sequence can be read back at its own position. */
  lemma {:induction false} ByteAtEscapes(bytes: seq<int>, rest: string, k: nat)
    requires forall b <- bytes :: IsByte(b)
    requires k < |bytes|
    ensures ByteAt(PercentEscape(bytes) + rest, 3 * k) == Some(bytes[k])
  {
    var t := PercentEscape(bytes) + rest;
    var tail := PercentEscape(bytes[1..]) + rest;
    assert IsByte(bytes[0]) by { assert bytes[0] in bytes; }
    assert t == ['%', HexDigit(bytes[0] / 16), HexDigit(bytes[0] % 16)] + tail;
    if k == 0 {
      ByteAtEscape(bytes[0], tail);
    } else {
      ByteAtEscapes(bytes[1..], rest, k - 1);
      var i := 3 * (k - 1);
      assert t[i + 3] == tail[i] && t[i + 4] == tail[i + 1] && t[i + 5] == tail[i + 2];
    }
  }

  lemma Utf8TwoBytes(v: int)
    requires 0x80 <= v < 0x800
    ensures 0xC0 <= 0xC0 + v / 64 < 0xE0 && v == (v / 64) * 64 + v % 64
  {
  }

  lemma Utf8ThreeBytes(v: int)
    requires 0x800 <= v < 0x10000
    ensures 0xE0 <= 0xE0 + (v / 64) / 64 < 0xF0
    ensures v == (((v / 64) / 64) * 64 + (v / 64) % 64) * 64 + v % 64
  {
  }

  lemma Utf8FourBytes(v: int)
    requires 0x10000 <= v < 0x110000
    ensures 0xF0 <= 0xF0 + ((v / 64) / 64) / 64 < 0xF8
    ensures v == ((((((v / 64) / 64) / 64) * 64 + ((v / 64) / 64) % 64) * 64 + (v / 64) % 64) * 64) + v % 64
  {
  }

  lemma DecodeOneByte(c: char, rest: string)
    requires c as int < 0x80
    ensures DecodeEscaped(PercentEscape(Utf8(c)) + rest) == Some((c, 3))
  {
    ByteAtEscapes(Utf8(c), rest, 0);
    assert ScalarChar(c as int) == Some(c);
  }

  lemma DecodeTwoBytes(c: char, rest: string)
    requires 0x80 <= c as int < 0x800
    ensures DecodeEscaped(PercentEscape(Utf8(c)) + rest) == Some((c, 6))
  {
    var v := c as int;
    var bytes := Utf8(c);
    var t := PercentEscape(bytes) + rest;
    Utf8TwoBytes(v);
    ByteAtEscapes(bytes, rest, 0);
    ByteAtEscapes(bytes, rest, 1);
    assert ContinuationAt(t, 3) == Some(v % 64);
    assert ScalarChar(v) == Some(c);
  }

  lemma DecodeThreeBytes(c: char, rest: string)
    requires 0x800 <= c as int < 0x10000
    ensures DecodeEscaped(PercentEscape(Utf8(c)) + rest) == Some((c, 9))
  {
    var v := c as int;
    var bytes := Utf8(c);
    var t := PercentEscape(bytes) + rest;
    Utf8ThreeBytes(v);
    ByteAtEscapes(bytes, rest, 0);
    ByteAtEscapes(bytes, rest, 1);
    ByteAtEscapes(bytes, rest, 2);
    assert ContinuationAt(t, 3) == Some((v / 64) % 64);
    assert ContinuationAt(t, 6) == Some(v % 64);
    assert ScalarChar(v) == Some(c);
  }

  lemma DecodeFourBytes(c: char, rest: string)
    requires 0x10000 <= c as int
    ensures DecodeEscaped(PercentEscape(Utf8(c)) + rest) == Some((c, 12))
  {
    var v := c as int;
    var bytes := Utf8(c);
    var t := PercentEscape(bytes) + rest;
    Utf8FourBytes(v);
    ByteAtEscapes(bytes, rest, 0);
    ByteAtEscapes(bytes, rest, 1);
    ByteAtEscapes(bytes, rest, 2);
    ByteAtEscapes(bytes, rest, 3);
    assert ContinuationAt(t, 3) == Some(((v / 64) / 64) % 64);
    assert ContinuationAt(t, 6) == Some((v / 64) % 64);
    assert ContinuationAt(t, 9) == Some(v % 64);
    assert ScalarChar(v) == Some(c);
  }

  lemma DecodeFirstQuoteChar(c: char, rest: string)
    ensures DecodeFirst(QuoteChar(c) + rest) == Some((c, |QuoteChar(c)|))
  {
    if !Unreserved(c) && c != ' ' {
      var v := c as int;
      if v < 0x80 { DecodeOneByte(c, rest); }
      else if v < 0x800 { DecodeTwoBytes(c, rest); }
      else if v < 0x10000 { DecodeThreeBytes(c, rest); }
      else { DecodeFourBytes(c, rest); }
      ByteAtEscapes(Utf8(c), rest, 0);
    }
  }

  /** Decoding undoes `quote_plus`: the encoding loses nothing and is injective. */
  lemma {:induction false} UnquoteQuote(s: string)
    ensures Unquote(Quote(s)) == Some(s)
  {
    if s != [] {
      var t := Quote(s);
      assert t == QuoteChar(s[0]) + Quote(s[1..]);
      DecodeFirstQuoteChar(s[0], Quote(s[1..]));
      assert t[|QuoteChar(s[0])|..] == Quote(s[1..]);
      UnquoteQuote(s[1..]);
      assert [s[0]] + s[1..] == s;
    }
  }

  /** Characters `quote_plus` can emit: never a separator of the query string. */
  predicate QuotedChar(c: char) {
    Unreserved(c) || c == '+' || c == '%'
  }

  lemma PercentEscapeChars(bytes: seq<int>)
    requires forall b <- bytes :: IsByte(b)
    ensures forall c <- PercentEscape(bytes) :: QuotedChar(c)
  {
    if bytes != [] {
      PercentEscapeChars(bytes[1..]);
    }
  }

  /** A quoted value contains neither `&` nor `=`. */
  lemma {:induction false} QuoteHasNoSeparator(s: string)
    ensures forall c <- Quote(s) :: QuotedChar(c)
    ensures '&' !in Quote(s) && '=' !in Quote(s)
  {
    if s != [] {
      QuoteHasNoSeparator(s[1..]);
      if !Unreserved(s[0]) && s[0] != ' ' {
        PercentEscapeChars(Utf8(s[0]));
      }
    }
  }

  // ---- splitting and joining ----

  /** `sep.join(xs)` */
  function Join(xs: seq<string>, sep: char): string {
    if xs == [] then []
    else if |xs| == 1 then xs[0]
    else xs[0] + [sep] + Join(xs[1..], sep)
  }

  /** `s.split(sep)`: the pieces between separators, always at least one. */
  function Split(s: string, sep: char): (parts: seq<string>)
    ensures |parts| >= 1
  {
    if s == [] then [[]]
    else
      var rest := Split(s[1..], sep);
      if s[0] == sep then [[]] + rest
      else [[s[0]] + rest[0]] + rest[1..]
  }

  lemma {:induction false} SplitNoSeparator(x: string, sep: char)
    requires sep !in x
    ensures Split(x, sep) == [x]
  {
    if x != [] {
      SplitNoSeparator(x[1..], sep);
      assert [x[0]] + x[1..] == x;
    }
  }

  lemma {:induction false} SplitAtSeparator(x: string, sep: char, y: string)
    requires sep !in x
    ensures Split(x + [sep] + y, sep) == [x] + Split(y, sep)
  {
    if x == [] {
      assert x + [sep] + y == [sep] + y;
      assert ([sep] + y)[1..] == y;
    } else {
      assert (x + [sep] + y)[1..] == x[1..] + [sep] + y;
      SplitAtSeparator(x[1..], sep, y);
      assert [x[0]] + x[1..] == x;
    }
  }

  /** Splitting a join gives the pieces back when no piece contains the separator. */
  lemma {:induction false} SplitJoin(xs: seq<string>, sep: char)
    requires xs != []
    requires forall x <- xs :: sep !in x
    ensures Split(Join(xs, sep), sep) == xs
  {
    if |xs| == 1 {
      SplitNoSeparator(xs[0], sep);
    } else {
      SplitJoin(xs[1..], sep);
      SplitAtSeparator(xs[0], sep, Join(xs[1..], sep));
      assert [xs[0]] + xs[1..] == xs;
    }
  }
}
