/** The text form of a chunk: padded base64 (section 4 of RFC 4648) as the host writes and leniently reads it. */
module Base64 {
  import opened Prelude

  type sextet = x: nat | x < 64

  // ---- Symbols ----------------------------------------------------------------------------------

  function Symbol(v: sextet): char {
    if v < 26 then ('A' as nat + v) as char
    else if v < 52 then ('a' as nat + (v - 26)) as char
    else if v < 62 then ('0' as nat + (v - 52)) as char
    else if v == 62 then '+' else '/'
  }

  function Value(c: char): Option<sextet> {
    if 'A' <= c <= 'Z' then Some(c as nat - 'A' as nat)
    else if 'a' <= c <= 'z' then Some(26 + (c as nat - 'a' as nat))
    else if '0' <= c <= '9' then Some(52 + (c as nat - '0' as nat))
    else if c == '+' then Some(62) else if c == '/' then Some(63) else None
  }

  lemma ValueOfSymbol(v: sextet)
    ensures Value(Symbol(v)) == Some(v) && Symbol(v) != '='
  {
  }

  lemma SymbolOfValue(c: char)
    requires Value(c).Some?
    ensures Symbol(Value(c).value) == c
  {
  }

  // ---- Three bytes as four numbers of six bits --------------------------------------------------

  lemma SixBits(a: byte, b: byte, c: byte)
    ensures var w, x := a % 4 * 16 + b / 16, b % 16 * 4 + c / 64;
      && w < 64 && x < 64
      && a / 4 * 4 + w / 16 == a && w % 16 * 16 + x / 4 == b && x % 4 * 64 + c % 64 == c
  {
  }

  lemma EightBits(v: sextet, w: sextet, x: sextet, y: sextet)
    ensures var a, b, c := v * 4 + w / 16, w % 16 * 16 + x / 4, x % 4 * 64 + y;
      && a < 256 && b < 256 && c < 256
      && a / 4 == v && a % 4 * 16 + b / 16 == w && b % 16 * 4 + c / 64 == x && c % 64 == y
      && a % 4 * 16 == w - w % 16 && b % 16 * 4 == x - x % 4
  {
  }

  // ---- Groups of four symbols -------------------------------------------------------------------

  /** The text of four numbers of which all but the first `n + 1` are left out. */
  function Quad(v: sextet, w: sextet, x: sextet, y: sextet, n: nat): string {
    [Symbol(v), Symbol(w), if n > 1 then Symbol(x) else '=', if n > 2 then Symbol(y) else '=']
  }

  /** A byte of a group; missing bytes count as zero. */
  function At(group: Bytes, i: nat): byte {
    if i < |group| then group[i] else 0
  }

  /** The four symbols of one to three bytes; missing symbols are `=`. */
  function EncodeGroup(group: Bytes): (text: string)
    requires 0 < |group| <= 3
    ensures |text| == 4
  {
    var a, b, c := At(group, 0), At(group, 1), At(group, 2);
    Quad(a / 4, a % 4 * 16 + b / 16, b % 16 * 4 + c / 64, c % 64, |group|)
  }

  predicate Symbols(text: string) {
    forall c :: c in text ==> Value(c).Some?
  }

  /** Four symbols, the last one or two of which may be `=` in the last group. */
  predicate GroupShape(text: string, last: bool) {
    && |text| == 4
    && (|| Symbols(text)
        || (last && Symbols(text[..3]) && text[3] == '=')
        || (last && Symbols(text[..2]) && text[2] == '=' && text[3] == '='))
  }

  function DecodeGroup(text: string): (group: Bytes)
    requires GroupShape(text, true)
    ensures 0 < |group| <= 3
    ensures |group| == 3 <==> Symbols(text)
  {
    var v, w := Value(text[0]).value, Value(text[1]).value;
    assert Value('=').None?;
    if text[2] == '=' then [v * 4 + w / 16]
    else
      var x := Value(text[2]).value;
      if text[3] == '=' then [v * 4 + w / 16, w % 16 * 16 + x / 4]
      else [v * 4 + w / 16, w % 16 * 16 + x / 4, x % 4 * 64 + Value(text[3]).value]
  }

  /** The bits that the bytes of a short group do not use. */
  predicate NoLeftover(text: string)
    requires GroupShape(text, true)
  {
    if text[2] == '=' then Value(text[1]).value % 16 == 0
    else text[3] == '=' ==> Value(text[2]).value % 4 == 0
  }

  lemma GroupRoundTrip(group: Bytes)
    requires 0 < |group| <= 3
    ensures GroupShape(EncodeGroup(group), |group| < 3) && GroupShape(EncodeGroup(group), true)
    ensures DecodeGroup(EncodeGroup(group)) == group
  {
    var a, b, c := At(group, 0), At(group, 1), At(group, 2);
    SixBits(a, b, c);
    QuadOfBytes(group, a / 4, a % 4 * 16 + b / 16, b % 16 * 4 + c / 64, c % 64);
  }

  lemma QuadOfBytes(group: Bytes, v: sextet, w: sextet, x: sextet, y: sextet)
    requires 0 < |group| <= 3
    requires v * 4 + w / 16 == At(group, 0) && w % 16 * 16 + x / 4 == At(group, 1) && x % 4 * 64 + y == At(group, 2)
    ensures var text := Quad(v, w, x, y, |group|);
      GroupShape(text, |group| < 3) && GroupShape(text, true) && DecodeGroup(text) == group
  {
    QuadRoundTrip(v, w, x, y, |group|);
    assert group == if |group| == 1 then [At(group, 0)] else if |group| == 2 then [At(group, 0), At(group, 1)]
                    else [At(group, 0), At(group, 1), At(group, 2)];
  }

  lemma QuadRoundTrip(v: sextet, w: sextet, x: sextet, y: sextet, n: nat)
    requires 0 < n <= 3
    ensures GroupShape(Quad(v, w, x, y, n), n < 3) && GroupShape(Quad(v, w, x, y, n), true)
    ensures var a, b, c := v * 4 + w / 16, w % 16 * 16 + x / 4, x % 4 * 64 + y;
      DecodeGroup(Quad(v, w, x, y, n)) == if n == 1 then [a] else if n == 2 then [a, b] else [a, b, c]
  {
    ValueOfSymbol(v);
    ValueOfSymbol(w);
    ValueOfSymbol(x);
    ValueOfSymbol(y);
    assert Value('=').None?;
  }

  /** The numbers a group of symbols stands for; a missing one counts as zero. */
  function Number(c: char): sextet {
    if Value(c).Some? then Value(c).value else 0
  }

  lemma GroupIsQuad(text: string)
    requires GroupShape(text, true)
    ensures text == Quad(Number(text[0]), Number(text[1]), Number(text[2]), Number(text[3]), |DecodeGroup(text)|)
  {
    assert Value('=').None?;
    forall c | c in text && c != '=' ensures Value(c).Some? && Symbol(Number(c)) == c {
      SymbolOfValue(c);
    }
  }

  lemma QuadsAgree(v: sextet, w: sextet, x: sextet, w': sextet, x': sextet, y: sextet, n: nat)
    requires 0 < n <= 3
    ensures Quad(v, w', x', y, n) == Quad(v, w, x, y, n) <==> w' == w && (n > 1 ==> x' == x)
  {
    ValueOfSymbol(w);
    ValueOfSymbol(w');
    ValueOfSymbol(x);
    ValueOfSymbol(x');
    var text, text' := Quad(v, w, x, y, n), Quad(v, w', x', y, n);
    assert text == text' ==> text[1] == text'[1] && text[2] == text'[2];
  }

  /** Encoding what four numbers stand for gives them back without the bits that were left over. */
  lemma ThreeReEncoded(v: sextet, w: sextet, x: sextet, y: sextet)
    ensures EncodeGroup([v * 4 + w / 16, w % 16 * 16 + x / 4, x % 4 * 64 + y]) == Quad(v, w, x, y, 3)
  {
    EightBits(v, w, x, y);
  }

  lemma TwoReEncoded(v: sextet, w: sextet, x: sextet)
    ensures EncodeGroup([v * 4 + w / 16, w % 16 * 16 + x / 4]) == Quad(v, w, x - x % 4, 0, 2)
  {
    EightBits(v, w, x, 0);
  }

  lemma OneReEncoded(v: sextet, w: sextet)
    ensures EncodeGroup([v * 4 + w / 16]) == Quad(v, w - w % 16, 0, 0, 1)
  {
    EightBits(v, w, 0, 0);
  }

  lemma QuadIsCanonical(v: sextet, w: sextet, x: sextet, y: sextet, n: nat)
    requires 0 < n <= 3 && (n < 2 ==> x == 0) && (n < 3 ==> y == 0)
    ensures var text := Quad(v, w, x, y, n);
      && GroupShape(text, true)
      && (EncodeGroup(DecodeGroup(text)) == text <==> (n == 1 ==> w % 16 == 0) && (n == 2 ==> x % 4 == 0))
  {
    QuadRoundTrip(v, w, x, y, n);
    if n == 1 {
      OneReEncoded(v, w);
      QuadsAgree(v, w, x, w - w % 16, x, y, n);
    } else if n == 2 {
      TwoReEncoded(v, w, x);
      QuadsAgree(v, w, x, w, x - x % 4, y, n);
    } else {
      ThreeReEncoded(v, w, x, y);
    }
  }

  lemma GroupIsCanonical(text: string)
    requires GroupShape(text, true)
    ensures EncodeGroup(DecodeGroup(text)) == text <==> NoLeftover(text)
  {
    GroupIsQuad(text);
    QuadIsCanonical(Number(text[0]), Number(text[1]), Number(text[2]), Number(text[3]), |DecodeGroup(text)|);
  }

  // ---- Texts ------------------------------------------------------------------------------------

  function Encode(bytes: Bytes): (text: string)
    ensures text == "" <==> bytes == []
  {
    if bytes == [] then ""
    else if |bytes| <= 3 then EncodeGroup(bytes)
    else EncodeGroup(bytes[..3]) + Encode(bytes[3..])
  }

  /** The pattern of the request schema. */
  predicate WellShaped(text: string) {
    text == "" || (|text| >= 4 && GroupShape(text[..4], |text| == 4) && WellShaped(text[4..]))
  }

  function Decode(text: string): Bytes
    requires WellShaped(text)
  {
    if text == "" then [] else DecodeGroup(text[..4]) + Decode(text[4..])
  }

  /** Only the last group can be short, so only it can have bits its bytes do not use. */
  predicate Canonical(text: string)
    requires WellShaped(text)
  {
    text == "" || (NoLeftover(text[..4]) && Canonical(text[4..]))
  }

  lemma TextOfGroups(group: string, rest: string)
    requires GroupShape(group, rest == "") && WellShaped(rest)
    ensures WellShaped(group + rest) && GroupShape(group, true)
    ensures Decode(group + rest) == DecodeGroup(group) + Decode(rest)
  {
    assert (group + rest)[..4] == group && (group + rest)[4..] == rest;
  }

  lemma EncodeFirst(bytes: Bytes)
    requires bytes != []
    ensures var n := Min(3, |bytes|);
      Encode(bytes) == EncodeGroup(bytes[..n]) + Encode(bytes[n..])
  {
    if |bytes| <= 3 {
      assert bytes[..|bytes|] == bytes && bytes[|bytes|..] == [];
      assert EncodeGroup(bytes) + "" == EncodeGroup(bytes);
    }
  }

  lemma {:induction false} EncodedLength(bytes: Bytes)
    ensures |Encode(bytes)| == (|bytes| + 2) / 3 * 4
  {
    if bytes != [] {
      EncodeFirst(bytes);
      EncodedLength(bytes[Min(3, |bytes|)..]);
    }
  }

  lemma EncodedGroupFirst(group: Bytes, rest: Bytes)
    requires 0 < |group| <= 3 && (|group| < 3 ==> rest == [])
    requires WellShaped(Encode(rest)) && Decode(Encode(rest)) == rest
    ensures var text := EncodeGroup(group) + Encode(rest);
      WellShaped(text) && Decode(text) == group + rest
  {
    GroupRoundTrip(group);
    TextOfGroups(EncodeGroup(group), Encode(rest));
  }

  /** What is encoded has the shape the schema asks for, and decodes to what it was. */
  lemma {:induction false} EncodeThenDecode(bytes: Bytes)
    ensures WellShaped(Encode(bytes)) && Decode(Encode(bytes)) == bytes
  {
    if bytes != [] {
      var n := Min(3, |bytes|);
      EncodeFirst(bytes);
      EncodeThenDecode(bytes[n..]);
      EncodedGroupFirst(bytes[..n], bytes[n..]);
      assert bytes[..n] + bytes[n..] == bytes;
    }
  }

  /** A text of the right shape is the encoding of its bytes exactly when it leaves no bits over. */
  lemma {:induction false} ReEncoded(text: string)
    requires WellShaped(text)
    ensures Encode(Decode(text)) == text <==> Canonical(text)
  {
    if text != "" {
      var group, rest := text[..4], text[4..];
      assert group + rest == text;
      GroupIsCanonical(group);
      ReEncoded(rest);
      var bytes := DecodeGroup(group);
      if rest == "" {
        assert bytes + [] == bytes && group == text;
      } else {
        DecodedLength(rest);
        var all := bytes + Decode(rest);
        assert all[..3] == bytes && all[3..] == Decode(rest);
        assert (EncodeGroup(bytes) + Encode(Decode(rest)))[..4] == EncodeGroup(bytes);
        assert (EncodeGroup(bytes) + Encode(Decode(rest)))[4..] == Encode(Decode(rest));
      }
    }
  }

  lemma {:induction false} DecodedLength(text: string)
    requires WellShaped(text)
    ensures |text| % 4 == 0 && |text| / 4 * 3 - 2 <= |Decode(text)| <= |text| / 4 * 3
    ensures text != "" ==> Decode(text) != []
  {
    if text != "" {
      DecodedLength(text[4..]);
    }
  }
}
