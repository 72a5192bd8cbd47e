/** Percent-encoded link paths: what the link formatter writes when link paths are encoded and
    what the Markdown parser reads back. Strings are byte strings here. */
module LinkPaths {
  import opened Strings

  predicate IsBytes(s: string) {
    forall i | 0 <= i < |s| :: s[i] < 256 as char
  }

  predicate IsAlphanumeric(c: char) {
    'a' <= c <= 'z' || 'A' <= c <= 'Z' || '0' <= c <= '9'
  }

  /** Bytes that url.PathEscape writes as they are in a path segment: the unreserved ones of
      section 2.3 of RFC 3986 and some sub-delimiters. */
  predicate IsPlain(c: char) {
    IsAlphanumeric(c) || c in "-_.~$&+:=@"
  }

  const HEX := "0123456789ABCDEF"

  function Percent(c: char): string
    requires c < 256 as char
  {
    ['%', HEX[c as int / 16], HEX[c as int % 16]]
  }

  function EscapeByte(c: char): string
    requires c < 256 as char
  {
    if IsPlain(c) then [c] else Percent(c)
  }

  /** url.PathEscape. */
  function PathEscape(s: string): string
    requires IsBytes(s)
  {
    if s == [] then [] else EscapeByte(s[0]) + PathEscape(s[1..])
  }

  /** formatPath with path encoding on. */
  function FormatPath(path: string): string
    requires IsBytes(path)
  {
    ReplaceAll(PathEscape(path), "%2F", "/")
  }

  function HexValue(c: char): Option<nat> {
    if '0' <= c <= '9' then Some(c as int - '0' as int)
    else if 'a' <= c <= 'f' then Some(c as int - 'a' as int + 10)
    else if 'A' <= c <= 'F' then Some(c as int - 'A' as int + 10)
    else None
  }

  /** url.PathUnescape; None for a malformed escape. */
  function PathUnescape(s: string): Option<string> {
    if s == [] then Some([])
    else if s[0] == '%' then
      if |s| < 3 then None
      else
        var high, low, rest := HexValue(s[1]), HexValue(s[2]), PathUnescape(s[3..]);
        if high.None? || low.None? || rest.None? then None
        else Some([(high.value * 16 + low.value) as char] + rest.value)
    else
      var rest := PathUnescape(s[1..]);
      if rest.None? then None else Some([s[0]] + rest.value)
  }

  /** Encoding of one byte of a path: slashes are kept. */
  function EncodeByte(c: char): string
    requires c < 256 as char
  {
    if c == '/' then "/" else EscapeByte(c)
  }

  function EncodeEach(s: string): string
    requires IsBytes(s)
  {
    if s == [] then [] else EncodeByte(s[0]) + EncodeEach(s[1..])
  }

  lemma SkipByte(c: char, rest: string)
    requires c != '%'
    ensures ReplaceAll([c] + rest, "%2F", "/") == [c] + ReplaceAll(rest, "%2F", "/")
  {
  }

  lemma SlashIsPercent2F(c: char)
    requires c < 256 as char
    ensures Percent(c) == "%2F" <==> c == '/'
  {
  }

  lemma HexDigitValue(n: nat)
    requires n < 16
    ensures HexValue(HEX[n]) == Some(n)
  {
  }

  /** A percent sign that does not start %2F stays, with the two characters after it. */
  lemma SkipTriple(high: char, low: char, rest: string)
    requires ['%', high, low] != "%2F" && high != '%' && low != '%'
    ensures ReplaceAll(['%', high, low] + rest, "%2F", "/") == ['%', high, low] + ReplaceAll(rest, "%2F", "/")
  {
    var text := ['%', high, low] + rest;
    assert text[..3] == ['%', high, low] && text[1..] == [high] + ([low] + rest);
    SkipByte(high, [low] + rest);
    SkipByte(low, rest);
  }

  lemma EncodedByte(c: char, rest: string)
    requires c < 256 as char
    ensures ReplaceAll(Percent(c) + rest, "%2F", "/") == (if c == '/' then "/" else Percent(c))
      + ReplaceAll(rest, "%2F", "/")
  {
    SlashIsPercent2F(c);
    var text := Percent(c) + rest;
    assert text[..3] == Percent(c) && text[3..] == rest;
    if c != '/' {
      var high, low := HEX[c as int / 16], HEX[c as int % 16];
      HexDigitValue(c as int / 16);
      HexDigitValue(c as int % 16);
      assert text[1..] == [high] + ([low] + rest);
      SkipTriple(high, low, rest);
    }
  }

  /** Turning %2F back into a slash rewrites the encoded slashes and nothing else. */
  lemma {:induction false} OnlySlashesRewritten(path: string)
    requires IsBytes(path)
    ensures FormatPath(path) == EncodeEach(path)
  {
    if path != [] {
      OnlySlashesRewritten(path[1..]);
      var c, rest := path[0], PathEscape(path[1..]);
      if IsPlain(c) {
        SkipByte(c, rest);
      } else {
        EncodedByte(c, rest);
      }
    }
  }

  lemma UnescapeByte(c: char, rest: string)
    requires c < 256 as char && PathUnescape(rest).Some?
    ensures PathUnescape(EncodeByte(c) + rest) == Some([c] + PathUnescape(rest).value)
  {
    var text := EncodeByte(c) + rest;
    if c == '/' || IsPlain(c) {
      assert text[0] == c && text[1..] == rest;
    } else {
      assert text[0] == '%' && text[3..] == rest;
      HexDigitValue(c as int / 16);
      HexDigitValue(c as int % 16);
      assert (c as int / 16) * 16 + c as int % 16 == c as int;
    }
  }

  /** Decoding an encoded path returns it, for every byte string. */
  lemma {:induction false} UnescapeFormatted(path: string)
    requires IsBytes(path)
    ensures PathUnescape(FormatPath(path)) == Some(path)
  {
    OnlySlashesRewritten(path);
    if path != [] {
      OnlySlashesRewritten(path[1..]);
      UnescapeFormatted(path[1..]);
      UnescapeByte(path[0], EncodeEach(path[1..]));
      assert path == [path[0]] + path[1..];
    }
  }

  /** No white space, parenthesis, bracket, quote or control character is left in an encoded path. */
  lemma {:induction false} EncodedIsSafe(path: string)
    requires IsBytes(path)
    ensures forall c | c in FormatPath(path) :: IsAlphanumeric(c) || c in "-_.~$&+:=@/%"
  {
    OnlySlashesRewritten(path);
    if path != [] {
      OnlySlashesRewritten(path[1..]);
      EncodedIsSafe(path[1..]);
      EncodedByteIsSafe(path[0]);
    }
  }

  lemma EncodedByteIsSafe(c: char)
    requires c < 256 as char
    ensures forall d | d in EncodeByte(c) :: IsAlphanumeric(d) || d in "-_.~$&+:=@/%"
  {
    HexDigitValue(c as int / 16);
    HexDigitValue(c as int % 16);
  }

  /** A path of such characters but the percent sign is written as it is. */
  lemma {:induction false} PlainPathIsKept(path: string)
    requires forall c | c in path :: IsAlphanumeric(c) || c in "-_.~$&+:=@/"
    ensures IsBytes(path) && FormatPath(path) == path
  {
    forall i | 0 <= i < |path| ensures path[i] < 256 as char {
      assert path[i] in path;
    }
    OnlySlashesRewritten(path);
    if path != [] {
      PlainPathIsKept(path[1..]);
      OnlySlashesRewritten(path[1..]);
      assert path[0] in path && path == [path[0]] + path[1..];
    }
  }
}
