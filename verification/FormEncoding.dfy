/** `urllib.parse.urlencode` over ASCII text, and the reader of such a form on the other side. */
module FormEncoding {
  import opened Strings

  datatype Field = Field(name: string, value: string)

  predicate Ascii(s: string) {
    forall i :: 0 <= i < |s| ==> s[i] as int < 128
  }

  /** The characters `quote_plus` leaves alone: the unreserved set of section 2.3 of RFC 3986. */
  predicate Unreserved(c: char) {
    'a' <= c <= 'z' || 'A' <= c <= 'Z' || '0' <= c <= '9' || c in {'_', '.', '-', '~'}
  }

  function HexDigit(n: nat): char
    requires n < 16
  {
    if n < 10 then '0' + n as char else 'A' + (n - 10) as char
  }

  /** The value of a hexadecimal digit in either case, or -1. */
  function HexValue(c: char): int {
    if '0' <= c <= '9' then c as int - '0' as int
    else if 'A' <= c <= 'F' then c as int - 'A' as int + 10
    else if 'a' <= c <= 'f' then c as int - 'a' as int + 10
    else -1
  }

  function QuoteChar(c: char): string
    requires c as int < 128
  {
    if Unreserved(c) then [c]
    else if c == ' ' then "+"
    else ['%', HexDigit(c as int / 16), HexDigit(c as int % 16)]
  }

  function Quote(s: string): string
    requires Ascii(s)
  {
    if s == "" then "" else QuoteChar(s[0]) + Quote(s[1..])
  }

  predicate EscapeAt(s: string) {
    |s| >= 3 && s[0] == '%' && HexValue(s[1]) >= 0 && HexValue(s[2]) >= 0
  }

  /** Undoes one layer of quoting; a percent sign that starts no escape stands for itself. */
  function Unquote(s: string): string {
    if s == "" then ""
    else if s[0] == '+' then " " + Unquote(s[1..])
    else if EscapeAt(s) then [(HexValue(s[1]) * 16 + HexValue(s[2])) as char] + Unquote(s[3..])
    else [s[0]] + Unquote(s[1..])
  }

  function EncodeField(field: Field): string
    requires Ascii(field.name) && Ascii(field.value)
  {
    Quote(field.name) + "=" + Quote(field.value)
  }

  ghost predicate AsciiFields(fields: seq<Field>) {
    forall f :: f in fields ==> Ascii(f.name) && Ascii(f.value)
  }

  function EncodeEach(fields: seq<Field>): seq<string>
    requires AsciiFields(fields)
  {
    seq(|fields|, i requires 0 <= i < |fields| => EncodeField(fields[i]))
  }

  function UrlEncode(fields: seq<Field>): string
    requires AsciiFields(fields)
  {
    Join(EncodeEach(fields), '&')
  }

  function DecodeField(piece: string): Field {
    var (name, value) := Partition(piece, '=');
    Field(Unquote(name), Unquote(value))
  }

  function DecodePieces(pieces: seq<string>): seq<Field> {
    if pieces == [] then []
    else (if pieces[0] == "" then [] else [DecodeField(pieces[0])]) + DecodePieces(pieces[1..])
  }

  /** The form reader: pieces between ampersands, empty ones skipped, name and value at the first `=`. */
  function ParseForm(s: string): seq<Field> {
    DecodePieces(Split(s, '&'))
  }

  lemma HexDigits(n: nat)
    requires n < 16
    ensures HexValue(HexDigit(n)) == n && HexDigit(n) !in {'&', '=', '?'}
  {
  }

  lemma UnquoteChar(c: char, rest: string)
    requires c as int < 128
    ensures Unquote(QuoteChar(c) + rest) == [c] + Unquote(rest)
    ensures '&' !in QuoteChar(c) && '=' !in QuoteChar(c) && '?' !in QuoteChar(c)
  {
    var s := QuoteChar(c) + rest;
    if Unreserved(c) || c == ' ' {
      assert s[1..] == rest;
    } else {
      var n := c as int;
      HexDigits(n / 16);
      HexDigits(n % 16);
      assert s[3..] == rest;
      assert n == n / 16 * 16 + n % 16;
      assert n as char == c;
    }
  }

  /** Each character has the one form the encoder gives it: itself, a plus sign, or its code in capital hexadecimal. */
  lemma QuotesExactly(c: char)
    requires c as int < 128
    ensures Quote([c]) ==
            var n := c as int;
            if n in {45, 46, 95, 126} || 48 <= n <= 57 || 65 <= n <= 90 || 97 <= n <= 122 then [c]
            else if n == 32 then "+"
            else ['%', "0123456789ABCDEF"[n / 16], "0123456789ABCDEF"[n % 16]]
  {
    assert [c][1..] == "" && Quote("") == "";
    CapitalHex(c as int / 16);
    CapitalHex(c as int % 16);
  }

  /** Unreserved text is not changed by quoting. */
  lemma {:induction false} QuotePlain(s: string)
    requires Ascii(s) && forall i :: 0 <= i < |s| ==> Unreserved(s[i])
    ensures Quote(s) == s
  {
    if s == "" {
    } else {
      QuotePlain(s[1..]);
      assert s == [s[0]] + s[1..];
    }
  }

  lemma AsciiAppend(a: string, b: string)
    requires Ascii(a) && Ascii(b)
    ensures Ascii(a + b)
  {
  }

  lemma Associative(a: string, b: string, c: string)
    ensures a + b + c == a + (b + c)
  {
  }

  lemma {:induction false} QuoteAppend(a: string, b: string)
    requires Ascii(a) && Ascii(b) && Ascii(a + b)
    ensures Quote(a + b) == Quote(a) + Quote(b)
  {
    if a == "" {
      assert a + b == b;
    } else {
      var rest := a[1..];
      AsciiAppend(rest, b);
      QuoteAppend(rest, b);
      assert (a + b)[0] == a[0] && (a + b)[1..] == rest + b;
      Associative(QuoteChar(a[0]), Quote(rest), Quote(b));
    }
  }

  lemma CapitalHex(n: nat)
    requires n < 16
    ensures HexDigit(n) == "0123456789ABCDEF"[n]
  {
  }

  /** One layer of form quoting is undone exactly, for every ASCII text. */
  lemma {:induction false} UnquoteQuote(s: string)
    requires Ascii(s)
    ensures Unquote(Quote(s)) == s
    ensures '&' !in Quote(s) && '=' !in Quote(s) && '?' !in Quote(s)
  {
    if s == "" {
    } else {
      UnquoteQuote(s[1..]);
      UnquoteChar(s[0], Quote(s[1..]));
    }
  }

  lemma DecodeEncodedField(field: Field)
    requires Ascii(field.name) && Ascii(field.value)
    ensures DecodeField(EncodeField(field)) == field
    ensures EncodeField(field) != "" && '&' !in EncodeField(field)
  {
    UnquoteQuote(field.name);
    UnquoteQuote(field.value);
    PartitionFirst(Quote(field.name), '=', Quote(field.value));
  }

  lemma {:induction false} DecodeEncodedPieces(fields: seq<Field>)
    requires AsciiFields(fields)
    ensures DecodePieces(EncodeEach(fields)) == fields
  {
    if fields == [] {
    } else {
      assert fields[0] in fields;
      DecodeEncodedField(fields[0]);
      DecodeEncodedPieces(fields[1..]);
      assert EncodeEach(fields)[1..] == EncodeEach(fields[1..]);
    }
  }

  /** Reading an encoded form gives back exactly its fields, in order, whatever characters they hold. */
  lemma FormRoundTrip(fields: seq<Field>)
    requires AsciiFields(fields)
    ensures ParseForm(UrlEncode(fields)) == fields
  {
    var pieces := EncodeEach(fields);
    if fields != [] {
      forall p | p in pieces ensures '&' !in p {
        var i :| 0 <= i < |fields| && pieces[i] == p;
        DecodeEncodedField(fields[i]);
      }
      SplitJoin(pieces, '&');
      DecodeEncodedPieces(fields);
    }
  }

  /** Quoted text consists of unreserved characters, plus signs and percent signs only. */
  lemma {:induction false} QuoteAlphabet(s: string)
    requires Ascii(s)
    ensures forall c :: c in Quote(s) ==> Unreserved(c) || c == '+' || c == '%'
  {
    if s == "" {
    } else {
      QuoteAlphabet(s[1..]);
      HexIsUnreserved(s[0] as int / 16);
      HexIsUnreserved(s[0] as int % 16);
    }
  }

  lemma HexIsUnreserved(n: nat)
    requires n < 16
    ensures Unreserved(HexDigit(n))
  {
    if n < 10 {
      assert HexDigit(n) as int == '0' as int + n;
    } else {
      assert HexDigit(n) as int == 'A' as int + (n - 10);
    }
  }

  lemma QuoteIsAscii(s: string)
    requires Ascii(s)
    ensures Ascii(Quote(s))
  {
    QuoteAlphabet(s);
    var q := Quote(s);
    forall i | 0 <= i < |q| ensures q[i] as int < 128 {
      assert q[i] in q;
    }
  }

  lemma FieldIsAscii(f: Field)
    requires Ascii(f.name) && Ascii(f.value)
    ensures Ascii(EncodeField(f))
  {
    QuoteIsAscii(f.name);
    QuoteIsAscii(f.value);
    AsciiAppend(Quote(f.name), "=");
    AsciiAppend(Quote(f.name) + "=", Quote(f.value));
  }

  lemma {:induction false} JoinIsAscii(pieces: seq<string>)
    requires forall p :: p in pieces ==> Ascii(p)
    ensures Ascii(Join(pieces, '&'))
  {
    if |pieces| <= 1 {
    } else {
      var rest := Join(pieces[1..], '&');
      JoinIsAscii(pieces[1..]);
      AsciiAppend(pieces[0], "&");
      AsciiAppend(pieces[0] + "&", rest);
    }
  }

  lemma UrlEncodeIsAscii(fields: seq<Field>)
    requires AsciiFields(fields)
    ensures Ascii(UrlEncode(fields))
  {
    forall p | p in EncodeEach(fields) ensures Ascii(p) {
      var i :| 0 <= i < |fields| && EncodeEach(fields)[i] == p;
      FieldIsAscii(fields[i]);
    }
    JoinIsAscii(EncodeEach(fields));
  }
}
