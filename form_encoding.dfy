/** The `application/x-www-form-urlencoded` serializer as Python's
    `urllib.parse.urlencode` implements it with `quote_plus`: every key and
    value is encoded as UTF-8, each byte outside Python's always-safe set
    (ASCII letters, digits and `_ . - ~`) becomes `%XX` with upper-case
    hexadecimal digits, a space becomes `+`, and the `key=value` pairs are
    joined with `&`. This differs from the serializer of section 5.2 of the
    WHATWG URL Standard in two bytes: WHATWG leaves `*` unencoded and encodes
    `~`, while Python encodes `*` and keeps `~`; the model follows Python.

    The partner of the serializer is a decoder of the same format, and the
    lemma `ParseQueryOfUrlEncode` states that decoding gives back the UTF-8
    bytes of every key and value, in order. */
module FormEncoding {
  import opened Wrappers
  import opened Strings

  type byte = b: int | 0 <= b < 256

  /** The UTF-8 encoding of one Unicode scalar value. */
  function Utf8Char(c: char): (r: seq<byte>)
    ensures 1 <= |r| <= 4
    ensures c as int < 0x80 <==> r == [c as int]
  {
    var cp := c as int;
    if cp < 0x80 then [cp]
    else if cp < 0x800 then [0xC0 + cp / 0x40, 0x80 + cp % 0x40]
    else if cp < 0x1_0000 then [0xE0 + cp / 0x1000, 0x80 + (cp / 0x40) % 0x40, 0x80 + cp % 0x40]
    else [0xF0 + cp / 0x4_0000, 0x80 + (cp / 0x1000) % 0x40, 0x80 + (cp / 0x40) % 0x40, 0x80 + cp % 0x40]
  }

  /** `s.encode("utf-8")`. */
  function Utf8(s: string): seq<byte>
  {
    if s == [] then [] else Utf8Char(s[0]) + Utf8(s[1..])
  }

  /** Python's `_ALWAYS_SAFE` bytes: ASCII letters, digits and `_ . - ~`. */
  predicate AlwaysSafe(b: byte) {
    (65 <= b <= 90) || (97 <= b <= 122) || (48 <= b <= 57) || b == 95 || b == 46 || b == 45 || b == 126
  }

  /** A character that `quote_plus` leaves unchanged. */
  predicate SafeChar(c: char) {
    c as int < 0x80 && AlwaysSafe(c as int)
  }

  /** A string made only of characters `quote_plus` leaves unchanged. */
  predicate SafeText(s: string) {
    forall i | 0 <= i < |s| :: SafeChar(s[i])
  }

  /** Upper-case hexadecimal digit, as `'%{:02X}'` writes it. */
  function HexDigit(d: int): char
    requires 0 <= d < 16
  {
    "0123456789ABCDEF"[d]
  }

  /** The value of a hexadecimal digit of either case. */
  function HexValue(c: char): (r: Option<int>)
    ensures r.Some? ==> 0 <= r.value < 16
  {
    if '0' <= c <= '9' then Some(c as int - '0' as int)
    else if 'A' <= c <= 'F' then Some(c as int - 'A' as int + 10)
    else if 'a' <= c <= 'f' then Some(c as int - 'a' as int + 10)
    else None
  }

  /** How `quote_plus` writes one byte of the UTF-8 encoding. */
  function QuoteByte(b: byte): string
  {
    if AlwaysSafe(b) then [b as char]
    else if b == 0x20 then "+"
    else ['%', HexDigit(b / 16), HexDigit(b % 16)]
  }

  function QuoteBytes(bs: seq<byte>): string
  {
    if bs == [] then "" else QuoteByte(bs[0]) + QuoteBytes(bs[1..])
  }

  /** `urllib.parse.quote_plus(s, safe="")`. */
  function QuotePlus(s: string): string
  {
    QuoteBytes(Utf8(s))
  }

  function EncodePair(p: (string, string)): string
  {
    QuotePlus(p.0) + "=" + QuotePlus(p.1)
  }

  function EncodePairs(pairs: seq<(string, string)>): (r: seq<string>)
    ensures |r| == |pairs|
    ensures forall i | 0 <= i < |pairs| :: r[i] == EncodePair(pairs[i])
  {
    if pairs == [] then [] else [EncodePair(pairs[0])] + EncodePairs(pairs[1..])
  }

  /** `urllib.parse.urlencode(pairs)` for a dictionary whose items, in
      insertion order, are `pairs`. */
  function UrlEncode(pairs: seq<(string, string)>): string
  {
    Join(EncodePairs(pairs), "&")
  }

  // ---------------------------------------------------------------------
  // The decoder: the partner of the serializer.

  /** Percent-decoding with `+` read as a space, to bytes; `None` when a `%`
      is not followed by two hexadecimal digits, or on a character outside
      ASCII. */
  function UnquotePlusBytes(s: string): Option<seq<byte>>
  {
    if s == [] then Some([])
    else if s[0] == '%' then
      if |s| < 3 then None
      else
        match (HexValue(s[1]), HexValue(s[2]), UnquotePlusBytes(s[3..]))
        case (Some(h), Some(l), Some(rest)) => Some([h * 16 + l] + rest)
        case _ => None
    else if s[0] == '+' then
      match UnquotePlusBytes(s[1..])
      case Some(rest) => Some([0x20] + rest)
      case None => None
    else if s[0] as int < 0x80 then
      match UnquotePlusBytes(s[1..])
      case Some(rest) => Some([s[0] as int] + rest)
      case None => None
    else None
  }

  /** One `key=value` piece, decoded; `None` unless it holds exactly one `=`. */
  function ParsePiece(piece: string): Option<(seq<byte>, seq<byte>)>
  {
    var kv := Split(piece, '=');
    if |kv| != 2 then None
    else
      match (UnquotePlusBytes(kv[0]), UnquotePlusBytes(kv[1]))
      case (Some(k), Some(v)) => Some((k, v))
      case _ => None
  }

  function ParsePieces(pieces: seq<string>): Option<seq<(seq<byte>, seq<byte>)>>
  {
    if pieces == [] then Some([])
    else
      match (ParsePiece(pieces[0]), ParsePieces(pieces[1..]))
      case (Some(p), Some(rest)) => Some([p] + rest)
      case _ => None
  }

  /** Decodes a query string into its key/value pairs, as byte strings. */
  function ParseQuery(q: string): Option<seq<(seq<byte>, seq<byte>)>>
  {
    if q == "" then Some([]) else ParsePieces(Split(q, '&'))
  }

  /** The UTF-8 bytes of every key and value. */
  function Utf8Pairs(pairs: seq<(string, string)>): (r: seq<(seq<byte>, seq<byte>)>)
    ensures |r| == |pairs|
    ensures forall i | 0 <= i < |pairs| :: r[i] == (Utf8(pairs[i].0), Utf8(pairs[i].1))
  {
    if pairs == [] then [] else [(Utf8(pairs[0].0), Utf8(pairs[0].1))] + Utf8Pairs(pairs[1..])
  }

  // ---------------------------------------------------------------------
  // Lemmas.

  lemma {:induction false} QuoteBytesAppend(a: seq<byte>, b: seq<byte>)
    ensures QuoteBytes(a + b) == QuoteBytes(a) + QuoteBytes(b)
  {
    if a != [] {
      assert (a + b)[0] == a[0];
      assert (a + b)[1..] == a[1..] + b;
      QuoteBytesAppend(a[1..], b);
    } else {
      assert a + b == b;
    }
  }

  lemma {:induction false} Utf8Append(s: string, t: string)
    ensures Utf8(s + t) == Utf8(s) + Utf8(t)
  {
    if s != [] {
      assert (s + t)[0] == s[0];
      assert (s + t)[1..] == s[1..] + t;
      Utf8Append(s[1..], t);
    } else {
      assert s + t == t;
    }
  }

  /** `quote_plus` encodes a concatenation piece by piece. */
  lemma QuotePlusAppend(s: string, t: string)
    ensures QuotePlus(s + t) == QuotePlus(s) + QuotePlus(t)
  {
    Utf8Append(s, t);
    QuoteBytesAppend(Utf8(s), Utf8(t));
  }

  /** A string of always-safe characters is left unchanged by `quote_plus`. */
  lemma {:induction false} QuotePlusSafe(s: string)
    requires SafeText(s)
    ensures QuotePlus(s) == s
  {
    if s != [] {
      assert SafeText(s[1..]) by {
        forall i | 0 <= i < |s[1..]| ensures SafeChar(s[1..][i]) {
          assert s[1..][i] == s[i + 1];
        }
      }
      QuotePlusSafe(s[1..]);
      assert s == [s[0]] + s[1..];
      QuotePlusAppend([s[0]], s[1..]);
      assert Utf8([s[0]]) == [s[0] as int] by {
        assert [s[0]][1..] == [];
      }
      assert QuoteBytes([s[0] as int]) == [s[0]] by {
        assert [s[0] as int][1..] == [];
      }
    }
  }

  /** The comma, the one character of a joined list of field names that
      `quote_plus` changes, becomes `%2C`. */
  lemma QuotePlusComma()
    ensures QuotePlus(",") == "%2C"
  {
    assert ","[1..] == [];
    assert Utf8(",") == [0x2C];
    assert [0x2C as byte][1..] == [];
    assert QuoteBytes([0x2C]) == QuoteByte(0x2C) + QuoteBytes([]);
  }

  /** Joining always-safe strings with `,` and then quoting is joining them
      with `%2C`. */
  lemma {:induction false} QuotePlusCommaJoin(parts: seq<string>)
    requires forall i | 0 <= i < |parts| :: SafeText(parts[i])
    ensures QuotePlus(Join(parts, ",")) == Join(parts, "%2C")
  {
    if parts == [] {
      assert Utf8("") == [];
    } else if |parts| == 1 {
      QuotePlusSafe(parts[0]);
    } else {
      QuotePlusCommaJoin(parts[1..]);
      QuotePlusSafe(parts[0]);
      QuotePlusComma();
      QuotePlusAppend(parts[0] + ",", Join(parts[1..], ","));
      QuotePlusAppend(parts[0], ",");
    }
  }

  /** The encoding of one byte never holds `&` or `=`. */
  lemma QuoteByteAlphabet(b: byte)
    ensures '&' !in QuoteByte(b) && '=' !in QuoteByte(b)
  {
    if !AlwaysSafe(b) && b != 0x20 {
      var s := QuoteByte(b);
      assert s == ['%', HexDigit(b / 16), HexDigit(b % 16)];
      assert HexDigit(b / 16) != '&' && HexDigit(b / 16) != '=';
      assert HexDigit(b % 16) != '&' && HexDigit(b % 16) != '=';
    }
  }

  /** Quoted text never holds `&` or `=`, so the pair and piece separators of a
      serialized query are unambiguous. */
  lemma {:induction false} QuoteBytesAlphabet(bs: seq<byte>)
    ensures '&' !in QuoteBytes(bs) && '=' !in QuoteBytes(bs)
  {
    if bs != [] {
      QuoteByteAlphabet(bs[0]);
      QuoteBytesAlphabet(bs[1..]);
    }
  }

  /** Decoding the encoding of one byte, followed by anything, yields that byte
      followed by the decoding of the rest. */
  lemma UnquoteQuoteByte(b: byte, t: string)
    ensures UnquotePlusBytes(QuoteByte(b) + t) ==
      match UnquotePlusBytes(t)
      case Some(rest) => Some([b] + rest)
      case None => None
  {
    var s := QuoteByte(b) + t;
    if AlwaysSafe(b) {
      assert s[0] == b as char && s[1..] == t;
    } else if b == 0x20 {
      assert s[0] == '+' && s[1..] == t;
    } else {
      assert s[0] == '%' && s[1] == HexDigit(b / 16) && s[2] == HexDigit(b % 16) && s[3..] == t;
      assert HexValue(HexDigit(b / 16)) == Some(b / 16);
      assert HexValue(HexDigit(b % 16)) == Some(b % 16);
    }
  }

  /** Round trip: decoding the quoted bytes gives back the bytes. */
  lemma {:induction false} UnquoteQuoteBytes(bs: seq<byte>)
    ensures UnquotePlusBytes(QuoteBytes(bs)) == Some(bs)
  {
    if bs != [] {
      UnquoteQuoteBytes(bs[1..]);
      UnquoteQuoteByte(bs[0], QuoteBytes(bs[1..]));
      assert [bs[0]] + bs[1..] == bs;
    }
  }

  /** Round trip of one serialized pair. */
  lemma ParsePieceOfEncodePair(p: (string, string))
    ensures ParsePiece(EncodePair(p)) == Some((Utf8(p.0), Utf8(p.1)))
  {
    var k, v := QuotePlus(p.0), QuotePlus(p.1);
    QuoteBytesAlphabet(Utf8(p.0));
    QuoteBytesAlphabet(Utf8(p.1));
    assert Join([k, v], "=") == EncodePair(p) by {
      assert [k, v][1..] == [v];
    }
    SplitJoin([k, v], '=');
    UnquoteQuoteBytes(Utf8(p.0));
    UnquoteQuoteBytes(Utf8(p.1));
  }

  lemma {:induction false} ParsePiecesOfEncodePairs(pairs: seq<(string, string)>)
    ensures ParsePieces(EncodePairs(pairs)) == Some(Utf8Pairs(pairs))
  {
    if pairs != [] {
      var e := EncodePairs(pairs);
      assert e[0] == EncodePair(pairs[0]);
      assert e[1..] == EncodePairs(pairs[1..]);
      ParsePieceOfEncodePair(pairs[0]);
      ParsePiecesOfEncodePairs(pairs[1..]);
    }
  }

  /** Round trip of a whole query: decoding `urlencode(pairs)` gives back every
      key and value, as UTF-8 bytes, in order. */
  lemma ParseQueryOfUrlEncode(pairs: seq<(string, string)>)
    ensures ParseQuery(UrlEncode(pairs)) == Some(Utf8Pairs(pairs))
  {
    var e := EncodePairs(pairs);
    if pairs == [] {
      assert UrlEncode(pairs) == "";
    } else {
      assert NoneContains(e, '&') by {
        forall i | 0 <= i < |e| ensures '&' !in e[i] {
          QuoteBytesAlphabet(Utf8(pairs[i].0));
          QuoteBytesAlphabet(Utf8(pairs[i].1));
        }
      }
      assert e[0] != "" by {
        assert '=' in e[0] by {
          assert e[0][|QuotePlus(pairs[0].0)|] == '=';
        }
      }
      JoinNonEmpty(e, "&", 0);
      SplitJoin(e, '&');
      ParsePiecesOfEncodePairs(pairs);
    }
  }

  /** `urlencode` of a non-empty dictionary is non-empty. */
  lemma UrlEncodeNonEmpty(pairs: seq<(string, string)>)
    requires pairs != []
    ensures UrlEncode(pairs) != ""
  {
    var e := EncodePairs(pairs);
    assert e[0][|QuotePlus(pairs[0].0)|] == '=';
    JoinNonEmpty(e, "&", 0);
  }
}
