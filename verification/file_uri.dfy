/** Turning a `file:///` enclosure URI into a local filesystem path, as in the
    `file` URI scheme of RFC 8089: drop the scheme (and, on Windows, the slash
    before the drive letter), then percent-decode (section 2.1 of RFC 3986).

    The tools treat percent-decoding as a black box (`urllib.parse.unquote`).
    `PercentDecode` below is a concrete decoder for the ASCII part of it, used
    for worked examples; `PercentEncode` is an encoder that decoding undoes. */
module FileUri {
  import opened Strings

  /** The only href prefix the PDF resolver accepts. */
  const LocalFilePrefix: string := "file:///"

  /** The part of a local `file:///` href left for percent-decoding. On POSIX
      systems 7 characters go (`file://`), so the absolute path keeps its
      leading `/`; on Windows 8 go (`file:///`), so the path starts at the
      drive letter. */
  function PathPart(href: string, isWindows: bool): (p: string)
    requires StartsWith(href, LocalFilePrefix)
    ensures isWindows ==> LocalFilePrefix + p == href
    ensures !isWindows ==> "file://" + p == href
    ensures !isWindows ==> |p| >= 1 && p[0] == '/'
  {
    if isWindows then href[8..] else href[7..]
  }

  /** The two platforms disagree by exactly one leading separator. */
  lemma PlatformsDifferBySlash(href: string)
    requires StartsWith(href, LocalFilePrefix)
    ensures PathPart(href, false) == "/" + PathPart(href, true)
  {
    assert href[7..] == [href[7]] + href[8..];
  }

  /** An href that names a host after `file://` (no third slash) is not a
      local file href. */
  lemma HostHrefNotLocal(host: string, rest: string)
    requires |host| > 0 && host[0] != '/'
    ensures !StartsWith("file://" + host + rest, LocalFilePrefix)
  {
    assert ("file://" + host + rest)[7] == host[0];
  }

  /** The value of a hexadecimal digit, if `c` is one (either case). */
  function HexValue(c: char): (v: int)
    ensures -1 <= v < 16
  {
    if '0' <= c <= '9' then c as int - '0' as int
    else if 'a' <= c <= 'f' then c as int - 'a' as int + 10
    else if 'A' <= c <= 'F' then c as int - 'A' as int + 10
    else -1
  }

  /** The upper-case hexadecimal digit for `n`. */
  function HexDigit(n: nat): (c: char)
    requires n < 16
    ensures HexValue(c) == n
  {
    "0123456789ABCDEF"[n]
  }

  /** `s` starts with an escape `%XX` that encodes an ASCII character. */
  predicate AsciiEscapeAt(s: string) {
    |s| >= 3 && s[0] == '%' && HexValue(s[1]) >= 0 && HexValue(s[2]) >= 0
    && HexValue(s[1]) * 16 + HexValue(s[2]) < 128
  }

  /** Decodes every `%XX` escape of an ASCII character; every other character,
      including a `%` that does not start such an escape, is kept. */
  function PercentDecode(s: string): string
    decreases |s|
  {
    if |s| == 0 then ""
    else if AsciiEscapeAt(s) then
      [(HexValue(s[1]) * 16 + HexValue(s[2])) as char] + PercentDecode(s[3..])
    else [s[0]] + PercentDecode(s[1..])
  }

  /** Characters left unescaped by `PercentEncode`: the unreserved characters
      of RFC 3986 plus the path characters `/` and `:`, and everything outside
      ASCII (whose UTF-8 encoding this model does not cover). */
  predicate IsPlain(c: char) {
    ('a' <= c <= 'z') || ('A' <= c <= 'Z') || ('0' <= c <= '9')
    || c == '-' || c == '.' || c == '_' || c == '~' || c == '/' || c == ':'
    || c as int >= 128
  }

  /** Escapes every ASCII character that is not plain as `%XX`. */
  function PercentEncode(s: string): string
    decreases |s|
  {
    if |s| == 0 then ""
    else if IsPlain(s[0]) then [s[0]] + PercentEncode(s[1..])
    else
      var n := s[0] as int;
      [ '%', HexDigit(n / 16), HexDigit(n % 16) ] + PercentEncode(s[1..])
  }

  /** Text without `%` is left alone by decoding, so a decoded string can be
      assembled piece by piece. */
  lemma {:induction false} DecodePlainPrefix(a: string, b: string)
    requires '%' !in a
    ensures PercentDecode(a + b) == a + PercentDecode(b)
    decreases |a|
  {
    if |a| == 0 {
      assert a + b == b;
    } else {
      assert (a + b)[0] == a[0];
      assert (a + b)[1..] == a[1..] + b;
      assert '%' !in a[1..] by {
        forall k | 0 <= k < |a| - 1 ensures a[1..][k] != '%' {
          assert a[1..][k] == a[k + 1];
        }
      }
      DecodePlainPrefix(a[1..], b);
      assert [a[0]] + a[1..] == a;
    }
  }

  /** An escaped space between two runs of plain text decodes to a space. */
  lemma DecodeEscapedSpace(a: string, b: string)
    requires '%' !in a && '%' !in b
    ensures PercentDecode(a + "%20" + b) == a + " " + b
  {
    assert a + "%20" + b == a + ("%20" + b);
    DecodePlainPrefix(a, "%20" + b);
    var e := "%20" + b;
    assert AsciiEscapeAt(e);
    assert e[3..] == b + "";
    DecodePlainPrefix(b, "");
  }

  /** `file:///<a>%20<b>` with plain `a` and `b` (for example
      `file:///tmp/my%20paper.pdf`) becomes `/<a> <b>` on POSIX systems
      (`/tmp/my paper.pdf`) and `<a> <b>` on Windows. */
  lemma LocalHrefWithEscapedSpace(a: string, b: string, isWindows: bool)
    requires '%' !in a && '%' !in b
    ensures StartsWith(LocalFilePrefix + a + "%20" + b, LocalFilePrefix)
    ensures PercentDecode(PathPart(LocalFilePrefix + a + "%20" + b, isWindows))
            == (if isWindows then "" else "/") + a + " " + b
  {
    var href := LocalFilePrefix + a + "%20" + b;
    assert href == LocalFilePrefix + (a + "%20" + b);
    assert href[..8] == LocalFilePrefix;
    if isWindows {
      assert PathPart(href, true) == a + "%20" + b;
      DecodeEscapedSpace(a, b);
    } else {
      assert PathPart(href, false) == ("/" + a) + "%20" + b;
      DecodeEscapedSpace("/" + a, b);
    }
  }

  /** Decoding undoes encoding. */
  lemma {:induction false} DecodeEncode(s: string)
    ensures PercentDecode(PercentEncode(s)) == s
    decreases |s|
  {
    if |s| > 0 {
      DecodeEncode(s[1..]);
      var rest := PercentEncode(s[1..]);
      if IsPlain(s[0]) {
        DecodePlainPrefix([s[0]], rest);
      } else {
        var n := s[0] as int;
        var e := [ '%', HexDigit(n / 16), HexDigit(n % 16) ] + rest;
        assert e[0] == '%' && e[1] == HexDigit(n / 16) && e[2] == HexDigit(n % 16);
        assert AsciiEscapeAt(e);
        assert e[3..] == rest;
        assert (HexValue(e[1]) * 16 + HexValue(e[2])) as char == s[0];
      }
      assert [s[0]] + s[1..] == s;
    }
  }
}
