/**
 The base64 codec of `native/src/dto/files.rs`: the encoder and the strict, whitespace-tolerant
 decoder, as the loops the source writes, proved against a group-wise reading of section 4 of
 RFC 4648.

 Texts are byte sequences, as `str::bytes` yields them. The 24-bit group of a `u32` is a natural
 number here: a shift left by 6 is a multiplication by 64 and an `|` into cleared bits an addition,
 and the bounds carried along show that no bit is ever shifted out of the word.
 */
module Base64 {
  import opened Wrappers

  const PAD: byte := 61

  datatype Error =
    | NotWholeGroups(length: nat)
    | MisplacedPadding
    | DataAfterPadding
    | InvalidCharacter(character: byte)

  // ---------------------------------------------------------------- the alphabet

  /** The value of one character, an error outside the alphabet. */
  function Sextet(c: byte): (r: Result<nat, Error>)
    ensures r.Ok? ==> r.value < 64
  {
    if 65 <= c <= 90 then Ok(c - 65)
    else if 97 <= c <= 122 then Ok(c - 97 + 26)
    else if 48 <= c <= 57 then Ok(c - 48 + 52)
    else if c == 43 then Ok(62)
    else if c == 47 then Ok(63)
    else Err(InvalidCharacter(c))
  }

  /** The character standing for a six-bit value: the source's 64-entry table as its five runs. */
  function Symbol(v: nat): (c: byte)
    requires v < 64
  {
    if v < 26 then 65 + v
    else if v < 52 then 97 + v - 26
    else if v < 62 then 48 + v - 52
    else if v == 62 then 43
    else 47
  }

  predicate IsSymbol(c: byte) {
    Sextet(c).Ok?
  }

  /** `char::is_ascii_whitespace`: space, tab, line feed, form feed and carriage return. */
  predicate IsAsciiWhitespace(c: byte) {
    c == 32 || c == 9 || c == 10 || c == 12 || c == 13
  }

  function Strip(text: seq<byte>): (s: seq<byte>)
    ensures |s| <= |text|
  {
    if text == [] then []
    else if IsAsciiWhitespace(text[0]) then Strip(text[1..])
    else [text[0]] + Strip(text[1..])
  }

  // ---------------------------------------------------------------- specification

  /** The 24-bit group of one to three bytes, big-endian, the missing bytes zero. */
  function Group(c: seq<byte>): (g: nat)
    requires 1 <= |c| <= 3
    ensures g < 0x1000000
  {
    (c[0] as int) * 65536 + (if |c| > 1 then (c[1] as int) * 256 else 0) + (if |c| > 2 then c[2] else 0)
  }

  /** The last `n` digits of a number in base 64, most significant first. */
  function Sextets(v: nat, n: nat): (s: seq<nat>)
    ensures |s| == n && forall i | 0 <= i < n :: s[i] < 64
  {
    if n == 0 then [] else Sextets(v / 64, n - 1) + [v % 64]
  }

  /** The last `n` digits of a number in base 256, most significant first. */
  function Octets(v: nat, n: nat): (s: seq<byte>)
    ensures |s| == n
  {
    if n == 0 then [] else Octets(v / 256, n - 1) + [v % 256]
  }

  /** The four characters of one group: |c| + 1 symbols, then padding. */
  function EncodeGroup(c: seq<byte>): (s: seq<byte>)
    requires 1 <= |c| <= 3
    ensures |s| == 4
  {
    var v := Sextets(Group(c), 4);
    [Symbol(v[0]), Symbol(v[1]), if |c| > 1 then Symbol(v[2]) else PAD, if |c| > 2 then Symbol(v[3]) else PAD]
  }

  function Encoded(b: seq<byte>): (s: seq<byte>)
    ensures |s| == (|b| + 2) / 3 * 4 && |s| % 4 == 0
  {
    if b == [] then []
    else
      var n := if 3 < |b| then 3 else |b|;
      EncodeGroup(b[..n]) + Encoded(b[n..])
  }

  /** One four-character group read left to right: the 24-bit value and the number of pads. */
  function Scan(group: seq<byte>, last: bool, position: nat, value: nat, padding: nat): (r: Result<(nat, nat), Error>)
    requires |group| == 4 && position <= 4 && padding <= if position <= 2 then 0 else position - 2
    ensures r.Ok? ==> r.value.1 <= 2
    decreases 4 - position
  {
    if position == 4 then Ok((value, padding))
    else if group[position] == PAD then
      if !last || position < 2 then Err(MisplacedPadding)
      else Scan(group, last, position + 1, value * 64, padding + 1)
    else if padding > 0 then Err(DataAfterPadding)
    else
      var v :- Sextet(group[position]);
      Scan(group, last, position + 1, value * 64 + v, padding)
  }

  /** The bytes of a 24-bit value of which the last `padding` are not produced. */
  function Unpack(value: nat, padding: nat): (b: seq<byte>)
    requires padding <= 2
    ensures |b| == 3 - padding
  {
    Octets(value, 3)[..3 - padding]
  }

  function DecodedGroup(group: seq<byte>, last: bool): (r: Result<seq<byte>, Error>)
    requires |group| == 4
  {
    var scanned :- Scan(group, last, 0, 0, 0);
    Ok(Unpack(scanned.0, scanned.1))
  }

  function DecodeGroups(s: seq<byte>): (r: Result<seq<byte>, Error>)
    requires |s| % 4 == 0
  {
    if s == [] then Ok([])
    else
      var group :- DecodedGroup(s[..4], |s| == 4);
      var rest :- DecodeGroups(s[4..]);
      Ok(group + rest)
  }

  /** The same, continued after `done` bytes have been produced. */
  function DecodeFrom(done: seq<byte>, s: seq<byte>): (r: Result<seq<byte>, Error>)
    requires |s| % 4 == 0
    decreases |s|
  {
    if s == [] then Ok(done)
    else
      var group :- DecodedGroup(s[..4], |s| == 4);
      DecodeFrom(done + group, s[4..])
  }

  lemma DecodeFromStep(done: seq<byte>, s: seq<byte>, group: Result<seq<byte>, Error>)
    requires s != [] && |s| % 4 == 0 && group == DecodedGroup(s[..4], |s| == 4)
    ensures |s[4..]| % 4 == 0
    ensures group.Err? ==> DecodeFrom(done, s) == Err(group.error)
    ensures group.Ok? ==> DecodeFrom(done, s) == DecodeFrom(done + group.value, s[4..])
  {
  }

  lemma {:induction false} DecodeFromIsDecodeGroups(done: seq<byte>, s: seq<byte>)
    requires |s| % 4 == 0
    ensures DecodeFrom(done, s) == match DecodeGroups(s)
                                   case Ok(b) => Ok(done + b)
                                   case Err(e) => Err(e)
    decreases |s|
  {
    if s == [] {
      assert done + [] == done;
    } else {
      var group := DecodedGroup(s[..4], |s| == 4);
      if group.Ok? {
        DecodeFromIsDecodeGroups(done + group.value, s[4..]);
        var rest := DecodeGroups(s[4..]);
        if rest.Ok? {
          assert done + (group.value + rest.value) == done + group.value + rest.value;
        }
      }
    }
  }

  function Decoded(text: seq<byte>): (r: Result<seq<byte>, Error>) {
    var s := Strip(text);
    if |s| % 4 != 0 then Err(NotWholeGroups(|s|)) else DecodeGroups(s)
  }

  // ---------------------------------------------------------------- the loops of the source

  method Encode(bytes: seq<byte>) returns (encoded: seq<byte>)
    ensures encoded == Encoded(bytes)
  {
    encoded := [];
    var chunks := bytes;
    while chunks != []
      invariant encoded + Encoded(chunks) == Encoded(bytes)
      decreases |chunks|
    {
      var n := if 3 < |chunks| then 3 else |chunks|;
      encoded := PushGroup(encoded, chunks[..n]);
      chunks := chunks[n..];
    }
  }

  /** The body of the encoder's loop: one chunk's symbols, then the padding that fills its group. */
  method PushGroup(before: seq<byte>, chunk: seq<byte>) returns (encoded: seq<byte>)
    requires 1 <= |chunk| <= 3
    ensures encoded == before + EncodeGroup(chunk)
  {
    encoded := before;
    var group := FoldGroup(chunk);
    ghost var target := EncodeGroup(chunk);
    ShiftsAreSextets(group);
    var index := 0;
    while index < |chunk| + 1
      invariant index <= |chunk|
      invariant encoded == before + target[..index]
    {
      encoded := encoded + [Symbol(ShiftedSextet(group, index))];
      if index == |chunk| {
        for pads := |chunk| to 3
          invariant encoded == before + target[..pads + 1]
        {
          encoded := encoded + [PAD];
        }
        break;
      }
      index := index + 1;
    }
  }

  /** The fold that packs a chunk's bytes into one group. */
  method FoldGroup(chunk: seq<byte>) returns (group: nat)
    requires 1 <= |chunk| <= 3
    ensures group == Group(chunk)
  {
    group := 0;
    var weight: int := 65536;
    for index := 0 to |chunk|
      invariant weight == if index == 0 then 65536 else if index == 1 then 256 else if index == 2 then 1 else 0
      invariant group == (if index > 0 then (chunk[0] as int) * 65536 else 0)
                         + (if index > 1 then (chunk[1] as int) * 256 else 0)
                         + (if index > 2 then chunk[2] else 0)
    {
      group := group + chunk[index] * weight;
      weight := weight / 256;
    }
  }

  /** `(group >> (18 - 6 * index)) & 0x3f`. */
  function ShiftedSextet(group: nat, index: nat): (v: nat)
    requires group < 0x1000000 && index < 4
    ensures v < 64
  {
    if index == 0 then group / 262144
    else if index == 1 then group / 4096 % 64
    else if index == 2 then group / 64 % 64
    else group % 64
  }

  /** The shifts read off the base-64 digits. */
  lemma ShiftsAreSextets(v: nat)
    requires v < 0x1000000
    ensures Sextets(v, 4) == [ShiftedSextet(v, 0), ShiftedSextet(v, 1), ShiftedSextet(v, 2), ShiftedSextet(v, 3)]
  {
    assert Sextets(v, 1) == Sextets(v / 64, 0) + [v % 64];
    var w := v / 64;
    var u := w / 64;
    assert Sextets(u / 64, 1) == Sextets(u / 64 / 64, 0) + [u / 64 % 64] == [u / 64 % 64];
    assert Sextets(u, 2) == Sextets(u / 64, 1) + [u % 64];
    assert Sextets(w, 3) == Sextets(u, 2) + [w % 64];
    assert u == v / 4096 && u / 64 == v / 262144;
  }

  /** The shifts of the decoder read off the base-256 digits. */
  lemma ShiftsAreOctets(v: nat)
    ensures Octets(v, 3) == [v / 65536 % 256, v / 256 % 256, v % 256]
  {
    var w := v / 256;
    assert Octets(w / 256, 1) == Octets(w / 256 / 256, 0) + [w / 256 % 256] == [w / 256 % 256];
    assert Octets(w, 2) == Octets(w / 256, 1) + [w % 256];
    assert w / 256 == v / 65536;
  }

  method Decode(text: seq<byte>) returns (r: Result<seq<byte>, Error>)
    ensures r == Decoded(text)
  {
    var bytes := StripLoop(text);
    if |bytes| % 4 != 0 {
      return Err(NotWholeGroups(|bytes|));
    }
    r := DecodeChunks(bytes);
    DecodeFromIsDecodeGroups([], bytes);
    assert forall b: seq<byte> :: [] + b == b;
  }

  /** The decoder's loop over the four-character chunks. */
  method DecodeChunks(bytes: seq<byte>) returns (r: Result<seq<byte>, Error>)
    requires |bytes| % 4 == 0
    ensures r == DecodeFrom([], bytes)
  {
    var decoded: seq<byte> := [];
    var chunks := bytes;
    ghost var whole := DecodeFrom([], bytes);
    while chunks != []
      invariant |chunks| % 4 == 0
      invariant whole == DecodeFrom(decoded, chunks)
      decreases |chunks|
    {
      var group := DecodeChunk(chunks[..4], |chunks| == 4);
      DecodeFromStep(decoded, chunks, group);
      if group.Err? {
        return Err(group.error);
      }
      decoded := decoded + group.value;
      chunks := chunks[4..];
    }
    return Ok(decoded);
  }

  /** The body of the decoder's loop: one four-character chunk, `last` when it is the final one. */
  method DecodeChunk(chunk: seq<byte>, last: bool) returns (r: Result<seq<byte>, Error>)
    requires |chunk| == 4
    ensures r == DecodedGroup(chunk, last)
  {
    var scanned :- ScanChunk(chunk, last);
    var (value, padding) := scanned;
    var produced := 3 - padding;
    var decoded: seq<byte> := [value / 65536 % 256];
    if produced >= 2 {
      decoded := decoded + [value / 256 % 256];
    }
    if produced >= 3 {
      decoded := decoded + [value % 256];
    }
    ShiftsAreOctets(value);
    assert decoded == Unpack(value, padding);
    return Ok(decoded);
  }

  method ScanChunk(chunk: seq<byte>, last: bool) returns (r: Result<(nat, nat), Error>)
    requires |chunk| == 4
    ensures r == Scan(chunk, last, 0, 0, 0)
    ensures r.Ok? ==> r.value.0 < 0x1000000 && r.value.1 <= 2
  {
    var value: nat := 0;
    var padding: nat := 0;
    var position := 0;
    while position < 4
      invariant 0 <= position <= 4
      invariant padding <= if position <= 2 then 0 else position - 2
      invariant value < Capacity(position)
      invariant Scan(chunk, last, 0, 0, 0) == Scan(chunk, last, position, value, padding)
    {
      var c := chunk[position];
      if c == PAD {
        if !last || position < 2 {
          return Err(MisplacedPadding);
        }
        padding := padding + 1;
        value := value * 64;
        position := position + 1;
        continue;
      }
      if padding > 0 {
        return Err(DataAfterPadding);
      }
      var sextet :- Sextet(c);
      value := value * 64 + sextet;
      position := position + 1;
    }
    return Ok((value, padding));
  }

  /** One past the largest value that many sextets hold. */
  function Capacity(sextets: nat): (n: nat)
    requires sextets <= 4
  {
    if sextets == 0 then 1 else if sextets == 1 then 64 else if sextets == 2 then 4096
    else if sextets == 3 then 0x40000 else 0x1000000
  }

  method StripLoop(text: seq<byte>) returns (s: seq<byte>)
    ensures s == Strip(text)
  {
    s := [];
    for i := 0 to |text|
      invariant s + Strip(text[i..]) == Strip(text)
    {
      assert text[i..][1..] == text[i + 1..];
      if !IsAsciiWhitespace(text[i]) {
        s := s + [text[i]];
      }
    }
    assert text[|text|..] == [];
  }

  // ---------------------------------------------------------------- one group

  /** What a character adds to its group's value: its sextet, or nothing when it is padding. */
  function Bits(c: byte): (v: nat)
    ensures v < 64
  {
    if IsSymbol(c) then Sextet(c).value else 0
  }

  predicate GroupAccepted(g: seq<byte>, last: bool)
    requires |g| == 4
  {
    && IsSymbol(g[0]) && IsSymbol(g[1])
    && (IsSymbol(g[2]) || (last && g[2] == PAD && g[3] == PAD))
    && (IsSymbol(g[3]) || (last && g[3] == PAD))
  }

  function Pads(g: seq<byte>): (n: nat)
    requires |g| == 4
  {
    if g[2] == PAD then 2 else if g[3] == PAD then 1 else 0
  }

  function GroupBits(g: seq<byte>): (v: nat)
    requires |g| == 4
  {
    Bits(g[0]) * 262144 + Bits(g[1]) * 4096 + Bits(g[2]) * 64 + Bits(g[3])
  }

  /** The left-to-right scan accepts exactly the groups described position by position. */
  lemma ScanAccepts(g: seq<byte>, last: bool)
    requires |g| == 4
    ensures Scan(g, last, 0, 0, 0).Ok? <==> GroupAccepted(g, last)
    ensures GroupAccepted(g, last) ==> Scan(g, last, 0, 0, 0) == Ok((GroupBits(g), Pads(g)))
  {
    if IsSymbol(g[0]) && IsSymbol(g[1]) {
      var v1 := Sextet(g[0]).value;
      var v2 := v1 * 64 + Sextet(g[1]).value;
      assert Scan(g, last, 0, 0, 0) == Scan(g, last, 1, v1, 0) == Scan(g, last, 2, v2, 0);
      ScanTail(g, last, v2);
    }
  }

  lemma ScanTail(g: seq<byte>, last: bool, v: nat)
    requires |g| == 4
    ensures Scan(g, last, 2, v, 0) ==
            if g[2] == PAD then
              if !last then Err(MisplacedPadding)
              else if g[3] == PAD then Ok((v * 64 * 64, 2))
              else Err(DataAfterPadding)
            else if !IsSymbol(g[2]) then Err(InvalidCharacter(g[2]))
            else if g[3] == PAD then
              if !last then Err(MisplacedPadding) else Ok(((v * 64 + Bits(g[2])) * 64, 1))
            else if !IsSymbol(g[3]) then Err(InvalidCharacter(g[3]))
            else Ok(((v * 64 + Bits(g[2])) * 64 + Bits(g[3]), 0))
  {
    if g[2] == PAD {
      assert last ==> Scan(g, last, 2, v, 0) == Scan(g, last, 3, v * 64, 1);
    } else if IsSymbol(g[2]) {
      assert Scan(g, last, 2, v, 0) == Scan(g, last, 3, v * 64 + Bits(g[2]), 0);
    }
  }

  /** Packing and unpacking a group undo each other. */
  lemma GroupRoundTrip(c: seq<byte>, last: bool)
    requires |c| == 3 || (1 <= |c| < 3 && last)
    ensures DecodedGroup(EncodeGroup(c), last) == Ok(c)
  {
    var g, v := EncodeGroup(c), Sextets(Group(c), 4);
    SymbolBits(v[0]);
    SymbolBits(v[1]);
    SymbolBits(v[2]);
    SymbolBits(v[3]);
    SextetsValue(Group(c));
    SpareSextets(c);
    assert GroupBits(g) == Group(c) && Pads(g) == 3 - |c|;
    ScanAccepts(g, last);
    OctetsOfGroup(c);
  }

  /** Base-64 digits determine the number. */
  lemma SextetsValue(v: nat)
    requires v < 0x1000000
    ensures var s := Sextets(v, 4); v == s[0] * 262144 + s[1] * 4096 + s[2] * 64 + s[3]
  {
    ShiftsAreSextets(v);
    var w := v / 64;
    var u := w / 64;
    assert v == w * 64 + v % 64 && w == u * 64 + w % 64 && u == u / 64 * 64 + u % 64;
    assert u == v / 4096 && u / 64 == v / 262144;
  }

  /** The sextets no byte of the chunk reaches are zero. */
  lemma SpareSextets(c: seq<byte>)
    requires 1 <= |c| <= 3
    ensures |c| < 3 ==> Sextets(Group(c), 4)[3] == 0
    ensures |c| < 2 ==> Sextets(Group(c), 4)[2] == 0
  {
    ShiftsAreSextets(Group(c));
    if |c| == 1 {
      SpareBits(c[0], 0);
    } else if |c| == 2 {
      SpareBits(c[0], c[1]);
    }
  }

  lemma SpareBits(x: byte, y: byte)
    ensures var v: nat := (x as int) * 65536 + (y as int) * 256;
            ShiftedSextet(v, 3) == 0 && (y == 0 ==> ShiftedSextet(v, 2) == 0)
  {
    var v: nat := (x as int) * 65536 + (y as int) * 256;
    assert v == 64 * ((x as int) * 1024 + (y as int) * 4);
  }

  lemma OctetsOfGroup(c: seq<byte>)
    requires 1 <= |c| <= 3
    ensures Unpack(Group(c), 3 - |c|) == c
  {
    OctetsOf(c[0], if |c| > 1 then c[1] else 0, if |c| > 2 then c[2] else 0);
  }

  lemma OctetsOf(x: byte, y: byte, z: byte)
    ensures Octets((x as int) * 65536 + (y as int) * 256 + z, 3) == [x, y, z]
  {
    assert Octets(x, 1) == Octets(x / 256, 0) + [x % 256] == [x];
    assert Octets((x as int) * 256 + y, 2) == [x] + [y];
    assert ((x as int) * 65536 + (y as int) * 256 + z) / 256 == (x as int) * 256 + y;
  }

  lemma SextetsOf(a: nat, b: nat, c: nat, d: nat)
    requires a < 64 && b < 64 && c < 64 && d < 64
    ensures Sextets(a * 262144 + b * 4096 + c * 64 + d, 4) == [a, b, c, d]
  {
    SextetsThree(a, b, c);
    SextetsSnoc(a * 4096 + b * 64 + c, d, 3);
    assert [a, b, c] + [d] == [a, b, c, d];
  }

  lemma SextetsThree(a: nat, b: nat, c: nat)
    requires a < 64 && b < 64 && c < 64
    ensures Sextets(a * 4096 + b * 64 + c, 3) == [a, b, c]
  {
    SextetsTwo(a, b);
    SextetsSnoc(a * 64 + b, c, 2);
    assert [a, b] + [c] == [a, b, c];
  }

  lemma SextetsTwo(a: nat, b: nat)
    requires a < 64 && b < 64
    ensures Sextets(a * 64 + b, 2) == [a, b]
  {
    SextetsOne(a);
    SextetsSnoc(a, b, 1);
    assert [a] + [b] == [a, b];
  }

  lemma SextetsOne(a: nat)
    requires a < 64
    ensures Sextets(a, 1) == [a]
  {
    assert Sextets(a / 64, 0) == [];
  }

  lemma SextetsSnoc(v: nat, d: nat, n: nat)
    requires d < 64
    ensures Sextets(v * 64 + d, n + 1) == Sextets(v, n) + [d]
    ensures Sextets(64 * v + d, n + 1) == Sextets(v, n) + [d]
  {
    assert (64 * v + d) / 64 == v && (64 * v + d) % 64 == d;
  }

  lemma SymbolBits(v: nat)
    requires v < 64
    ensures Symbol(v) != PAD && IsSymbol(Symbol(v)) && Bits(Symbol(v)) == v && !IsAsciiWhitespace(Symbol(v))
  {
  }

  // ---------------------------------------------------------------- main results

  lemma {:induction false} GroupsRoundTrip(b: seq<byte>)
    ensures DecodeGroups(Encoded(b)) == Ok(b)
  {
    if b != [] {
      var n := if 3 < |b| then 3 else |b|;
      var g, rest := EncodeGroup(b[..n]), Encoded(b[n..]);
      assert Encoded(b)[..4] == g && Encoded(b)[4..] == rest;
      GroupRoundTrip(b[..n], |b| == n);
      GroupsRoundTrip(b[n..]);
      assert b[..n] + b[n..] == b;
    }
  }

  /**
   Decoding undoes encoding, for every byte sequence and every way of wrapping the text: whatever
   ASCII whitespace the text carries, it decodes to the bytes its remaining characters encode.
   */
  lemma DecodeUndoesEncode(b: seq<byte>, text: seq<byte>)
    requires Strip(text) == Encoded(b)
    ensures Decoded(text) == Ok(b)
  {
    GroupsRoundTrip(b);
  }

  lemma {:induction false} StripConcat(a: seq<byte>, b: seq<byte>)
    ensures Strip(a + b) == Strip(a) + Strip(b)
  {
    if a == [] {
      assert a + b == b;
    } else {
      assert (a + b)[1..] == a[1..] + b;
      StripConcat(a[1..], b);
    }
  }

  lemma {:induction false} EncodedHasNoWhitespace(b: seq<byte>)
    ensures Strip(Encoded(b)) == Encoded(b)
  {
    if b != [] {
      var n := if 3 < |b| then 3 else |b|;
      var g := EncodeGroup(b[..n]);
      EncodedHasNoWhitespace(b[n..]);
      StripConcat(g, Encoded(b[n..]));
      assert forall i | 0 <= i < 4 :: !IsAsciiWhitespace(g[i]);
      StripKeeps(g);
    }
  }

  lemma {:induction false} StripKeeps(s: seq<byte>)
    requires forall i | 0 <= i < |s| :: !IsAsciiWhitespace(s[i])
    ensures Strip(s) == s
  {
    if s != [] {
      StripKeeps(s[1..]);
    }
  }

  /** Whitespace inserted at any position changes no decoding, accepted or refused. */
  lemma WhitespaceIsIgnored(before: seq<byte>, after: seq<byte>, w: byte)
    requires w in [9, 10, 12, 13, 32]
    ensures Decoded(before + [w] + after) == Decoded(before + after)
  {
    StripConcat(before + [w], after);
    StripConcat(before, [w]);
    StripConcat(before, after);
    assert Strip([w]) == [];
    assert Strip(before) + [] == Strip(before);
  }

  /** Whole groups over the alphabet, with nothing but padding in the last two places of the text. */
  predicate WellFormed(s: seq<byte>) {
    && |s| % 4 == 0
    && forall i | 0 <= i < |s| ::
         IsSymbol(s[i]) || (s[i] == PAD && i >= |s| - 2 && s[|s| - 1] == PAD)
  }

  lemma {:induction false} GroupsAccept(s: seq<byte>)
    requires |s| % 4 == 0
    ensures DecodeGroups(s).Ok? <==> WellFormed(s)
  {
    if s != [] {
      ScanAccepts(s[..4], |s| == 4);
      GroupsAccept(s[4..]);
      var t := s[4..];
      if WellFormed(s) {
        assert s[0] == s[..4][0] && s[1] == s[..4][1] && s[2] == s[..4][2] && s[3] == s[..4][3];
        assert WellFormed(t) by {
          forall i | 0 <= i < |t|
            ensures IsSymbol(t[i]) || (t[i] == PAD && i >= |t| - 2 && t[|t| - 1] == PAD)
          {
            assert t[i] == s[i + 4];
          }
        }
      }
      if GroupAccepted(s[..4], |s| == 4) && WellFormed(t) {
        forall i | 0 <= i < |s|
          ensures IsSymbol(s[i]) || (s[i] == PAD && i >= |s| - 2 && s[|s| - 1] == PAD)
        {
          if i >= 4 {
            assert s[i] == t[i - 4];
          } else {
            assert s[i] == s[..4][i];
          }
        }
      }
    }
  }

  /** The decoder accepts exactly the texts whose non-whitespace characters are well formed. */
  lemma DecoderAccepts(text: seq<byte>)
    ensures Decoded(text).Ok? <==> WellFormed(Strip(text))
  {
    if |Strip(text)| % 4 == 0 {
      GroupsAccept(Strip(text));
    }
  }

  /** The bits the padding cuts off are zero, as section 3.5 of RFC 4648 asks of an encoder. */
  predicate PadBitsZero(s: seq<byte>)
    requires WellFormed(s)
  {
    s == [] || s[|s| - 1] != PAD ||
    if s[|s| - 2] == PAD then Bits(s[|s| - 3]) % 16 == 0 else Bits(s[|s| - 2]) % 4 == 0
  }

  /** Re-encoding gives the text back exactly when its padding hides no bits. */
  lemma ReencodesIffCanonical(text: seq<byte>, b: seq<byte>)
    requires Decoded(text) == Ok(b)
    ensures WellFormed(Strip(text))
    ensures Encoded(b) == Strip(text) <==> PadBitsZero(Strip(text))
  {
    DecoderAccepts(text);
    GroupsReencode(Strip(text), b);
  }

  lemma {:induction false} GroupsReencode(s: seq<byte>, b: seq<byte>)
    requires WellFormed(s) && DecodeGroups(s) == Ok(b)
    ensures Encoded(b) == s <==> PadBitsZero(s)
  {
    if |s| == 4 {
      LastGroupReencodes(s, b);
    } else if s != [] {
      var head, tail := FullGroupDecodes(s, b);
      GroupsReencode(s[4..], tail);
      FullGroupEncodes(head, s[4..], tail);
      assert s == s[..4] + s[4..];
      assert Encoded(b)[4..] == Encoded(tail);
    }
  }

  lemma LastGroupReencodes(s: seq<byte>, b: seq<byte>)
    requires |s| == 4 && WellFormed(s) && DecodeGroups(s) == Ok(b)
    ensures Encoded(b) == s <==> PadBitsZero(s)
  {
    assert s[..4] == s && s[4..] == [];
    ScanAccepts(s, true);
    GroupReencodes(s, true);
    var group := DecodedGroup(s, true).value;
    assert b == group + [] == group;
    assert b[..|b|] == b && b[|b|..] == [] && Encoded([]) == [];
    assert Encoded(b) == EncodeGroup(b) + [] == EncodeGroup(b);
  }

  /** A group that is not the last is full, and is its own re-encoding. */
  lemma FullGroupDecodes(s: seq<byte>, b: seq<byte>) returns (head: seq<byte>, tail: seq<byte>)
    requires |s| > 4 && WellFormed(s) && DecodeGroups(s) == Ok(b)
    ensures b == head + tail && |head| == 3 && EncodeGroup(head) == s[..4]
    ensures WellFormed(s[4..]) && DecodeGroups(s[4..]) == Ok(tail)
    ensures PadBitsZero(s) <==> PadBitsZero(s[4..])
  {
    GroupsAccept(s[4..]);
    ScanAccepts(s[..4], false);
    GroupReencodes(s[..4], false);
    head, tail := DecodedGroup(s[..4], false).value, DecodeGroups(s[4..]).value;
  }

  lemma FullGroupEncodes(head: seq<byte>, t: seq<byte>, tail: seq<byte>)
    requires |head| == 3 && |t| % 4 == 0 && t != [] && DecodeGroups(t) == Ok(tail)
    ensures Encoded(head + tail) == EncodeGroup(head) + Encoded(tail)
  {
    GroupsDecodeNonempty(t);
    var b := head + tail;
    assert b[..3] == head && b[3..] == tail;
  }

  lemma GroupsDecodeNonempty(s: seq<byte>)
    requires |s| % 4 == 0 && s != [] && DecodeGroups(s).Ok?
    ensures DecodeGroups(s).value != []
  {
  }

  /** A group is its own re-encoding when it is full, and else exactly when its spare bits are zero. */
  lemma GroupReencodes(g: seq<byte>, last: bool)
    requires |g| == 4 && GroupAccepted(g, last)
    ensures DecodedGroup(g, last).Ok? && 1 <= |DecodedGroup(g, last).value| <= 3
    ensures EncodeGroup(DecodedGroup(g, last).value) == g <==>
            (Pads(g) == 2 ==> Bits(g[1]) % 16 == 0) && (Pads(g) == 1 ==> Bits(g[2]) % 4 == 0)
  {
    ScanAccepts(g, last);
    var c := DecodedGroup(g, last).value;
    SymbolOfBits(g[0]);
    SymbolOfBits(g[1]);
    if Pads(g) < 2 {
      SymbolOfBits(g[2]);
    }
    if Pads(g) == 0 {
      SymbolOfBits(g[3]);
    }
    RepackBits(Bits(g[0]), Bits(g[1]), Bits(g[2]), Bits(g[3]), Pads(g));
  }

  lemma SymbolOfBits(c: byte)
    requires IsSymbol(c)
    ensures c != PAD && Symbol(Bits(c)) == c
  {
  }

  /** The arithmetic of the spare bits: four sextets unpacked to bytes and packed again. */
  lemma RepackBits(a: nat, b: nat, c: nat, d: nat, padding: nat)
    requires a < 64 && b < 64 && c < 64 && d < 64 && padding <= 2
    requires padding >= 1 ==> d == 0
    requires padding == 2 ==> c == 0
    ensures var s := Sextets(Group(Unpack(a * 262144 + b * 4096 + c * 64 + d, padding)), 4);
            && s[0] == a
            && (s[1] == b <==> (padding == 2 ==> b % 16 == 0))
            && (padding < 2 ==> (s[2] == c <==> (padding == 1 ==> c % 4 == 0)))
            && (padding == 0 ==> s[3] == d)
  {
    var bh, bl, ch, cl := b / 16, b % 16, c / 4, c % 4;
    assert b == bh * 16 + bl && c == ch * 4 + cl;
    var x, y, z := a * 4 + bh, bl * 16 + ch, cl * 64 + d;
    OctetsOf(x, y, z);
    if padding == 0 {
      SextetsOf(a, b, c, d);
    } else if padding == 1 {
      SextetsOf(a, b, ch * 4, 0);
    } else {
      SextetsOf(a, bh * 16, 0, 0);
    }
  }

  /** What the encoder writes is in the alphabet, padded to whole groups, and canonical. */
  lemma EncoderOutput(b: seq<byte>)
    ensures |Encoded(b)| == (|b| + 2) / 3 * 4
    ensures WellFormed(Encoded(b)) && PadBitsZero(Encoded(b))
    ensures Decoded(Encoded(b)) == Ok(b)
  {
    EncodedHasNoWhitespace(b);
    DecodeUndoesEncode(b, Encoded(b));
    ReencodesIffCanonical(Encoded(b), b);
  }

  /** Three bytes come of four characters, at most. */
  lemma DecodedLength(text: seq<byte>)
    requires Decoded(text).Ok?
    ensures |Decoded(text).value| <= |text| / 4 * 3
  {
    GroupsLength(Strip(text));
    assert |Strip(text)| / 4 <= |text| / 4;
  }

  lemma {:induction false} GroupsLength(s: seq<byte>)
    requires |s| % 4 == 0 && DecodeGroups(s).Ok?
    ensures |DecodeGroups(s).value| <= |s| / 4 * 3
  {
    if s != [] {
      GroupLength(s[..4], |s| == 4);
      GroupsLength(s[4..]);
    }
  }

  lemma GroupLength(group: seq<byte>, last: bool)
    requires |group| == 4 && DecodedGroup(group, last).Ok?
    ensures |DecodedGroup(group, last).value| <= 3
  {
  }

  // ---------------------------------------------------------------- the alphabet written out

  const UPPER := "ABCDEFGHIJKLMNOPQRSTUVWXYZ"
  const LOWER := "abcdefghijklmnopqrstuvwxyz"
  const OTHERS := "0123456789+/"

  /** The alphabet of section 4 of RFC 4648, in the order of its values. */
  const ALPHABET := UPPER + LOWER + OTHERS

  lemma Letters(v: nat)
    requires v < 26
    ensures UPPER[v] as int == 65 + v && LOWER[v] as int == 97 + v
  {
  }

  lemma DigitsAndSigns(v: nat)
    requires v < 12
    ensures OTHERS[v] as int == if v < 10 then 48 + v else if v == 10 then 43 else 47
  {
  }

  /** The encoder writes, and the decoder reads, the character of the alphabet at each value. */
  lemma SymbolsAreTheAlphabet(v: nat)
    requires v < 64
    ensures |ALPHABET| == 64 && Symbol(v) == ALPHABET[v] as int && Sextet(Symbol(v)) == Ok(v)
  {
    if v < 26 {
      Letters(v);
      assert ALPHABET[v] == UPPER[v];
    } else if v < 52 {
      Letters(v - 26);
      assert ALPHABET[v] == LOWER[v - 26];
    } else {
      DigitsAndSigns(v - 52);
      assert ALPHABET[v] == OTHERS[v - 52];
    }
  }

  /** And no other character. */
  lemma AlphabetIff(c: byte, v: nat)
    ensures Sextet(c) == Ok(v) <==> v < 64 && |ALPHABET| == 64 && ALPHABET[v] as int == c
    ensures IsSymbol(c) <==> exists u: nat :: u < |ALPHABET| && ALPHABET[u] as int == c
  {
    if v < 64 {
      SymbolsAreTheAlphabet(v);
    }
    if IsSymbol(c) {
      var u := Sextet(c).value;
      SymbolsAreTheAlphabet(u);
      SymbolOfSextet(c);
      assert ALPHABET[u] as int == c;
    }
    if exists u: nat :: u < |ALPHABET| && ALPHABET[u] as int == c {
      var u: nat :| u < |ALPHABET| && ALPHABET[u] as int == c;
      SymbolsAreTheAlphabet(u);
    }
  }

  lemma SymbolOfSextet(c: byte)
    requires IsSymbol(c)
    ensures Symbol(Sextet(c).value) == c
  {
  }

  function ByteAt(b: seq<byte>, i: nat): (v: byte) {
    if i < |b| then b[i] else 0
  }

  /** The six bits of the bytes, first bits first, that the `j`-th character stands for; none there count as zero. */
  function SixBits(b: seq<byte>, j: nat): (v: nat)
    ensures v < 64
  {
    var i := j / 4 * 3;
    if j % 4 == 0 then ByteAt(b, i) / 4
    else if j % 4 == 1 then ByteAt(b, i) % 4 * 16 + ByteAt(b, i + 1) / 16
    else if j % 4 == 2 then ByteAt(b, i + 1) % 16 * 4 + ByteAt(b, i + 2) / 64
    else ByteAt(b, i + 2) % 64
  }

  lemma SplitBytes(x: byte, y: byte, z: byte)
    ensures var v: nat := (x as int) * 65536 + (y as int) * 256 + z;
            Sextets(v, 4) == [x / 4, x % 4 * 16 + y / 16, y % 16 * 4 + z / 64, z % 64]
  {
    var a, b, c, d: nat := x / 4, x % 4 * 16 + y / 16, y % 16 * 4 + z / 64, z % 64;
    SextetsOf(a, b, c, d);
    Regroup(x, y, z, x / 4, x % 4, y / 16, y % 16, z / 64, z % 64);
  }

  lemma Regroup(x: nat, y: nat, z: nat, a: nat, q: nat, r: nat, t: nat, u: nat, w: nat)
    requires x == 4 * a + q && y == 16 * r + t && z == 64 * u + w
    ensures x * 65536 + y * 256 + z == a * 262144 + (q * 16 + r) * 4096 + (t * 4 + u) * 64 + w
  {
  }

  lemma GroupAt(c: seq<byte>, j: nat)
    requires 1 <= |c| <= 3 && j < 4
    ensures EncodeGroup(c)[j] == if 6 * j < 8 * |c| then Symbol(SixBits(c, j)) else PAD
  {
    SplitBytes(ByteAt(c, 0), ByteAt(c, 1), ByteAt(c, 2));
  }

  lemma SixBitsShift(b: seq<byte>, j: nat)
    requires j >= 4 && |b| >= 3
    ensures SixBits(b, j) == SixBits(b[3..], j - 4)
  {
    assert j / 4 * 3 == (j - 4) / 4 * 3 + 3 && j % 4 == (j - 4) % 4;
    assert forall i: nat :: ByteAt(b, i + 3) == ByteAt(b[3..], i);
  }

  lemma EncodedHead(b: seq<byte>)
    requires b != []
    ensures var n := if 3 < |b| then 3 else |b|;
            Encoded(b) == EncodeGroup(b[..n]) + Encoded(b[n..])
  {
  }

  lemma HeadAt(b: seq<byte>, j: nat)
    requires b != [] && j < 4
    ensures EncodeGroup(b[..if 3 < |b| then 3 else |b|])[j] == if 6 * j < 8 * |b| then Symbol(SixBits(b, j)) else PAD
  {
    var c := b[..if 3 < |b| then 3 else |b|];
    GroupAt(c, j);
    assert forall i: nat | i < 3 :: ByteAt(c, i) == ByteAt(b, i);
  }

  lemma {:induction false} SymbolAt(b: seq<byte>, j: nat)
    requires j < |Encoded(b)|
    ensures Encoded(b)[j] == if 6 * j < 8 * |b| then Symbol(SixBits(b, j)) else PAD
    decreases |b|
  {
    EncodedHead(b);
    if j < 4 {
      HeadAt(b, j);
    } else {
      SymbolAt(b[if 3 < |b| then 3 else |b|..], j - 4);
      if |b| >= 3 {
        SixBitsShift(b, j);
      }
    }
  }

  /** Each character of an encoding is the alphabet's at the six bits it covers, and padding where it covers none. */
  lemma EncodedAt(b: seq<byte>, j: nat)
    requires j < |Encoded(b)|
    ensures |ALPHABET| == 64
    ensures Encoded(b)[j] == if 6 * j < 8 * |b| then ALPHABET[SixBits(b, j)] as int else 61
  {
    SymbolAt(b, j);
    SymbolsAreTheAlphabet(SixBits(b, j));
  }

  // ---------------------------------------------------------------- what is refused, and why

  /** What is wrong with a character where it stands, if everything before it is right. */
  function Fault(s: seq<byte>, i: nat): (e: Option<Error>)
    requires i < |s|
  {
    if s[i] == PAD then
      if i % 4 >= 2 && i + 4 >= |s| then None else Some(MisplacedPadding)
    else if i % 4 == 3 && s[i - 1] == PAD then Some(DataAfterPadding)
    else if IsSymbol(s[i]) then None
    else Some(InvalidCharacter(s[i]))
  }

  /** The first fault from a place on. */
  function FirstFault(s: seq<byte>, i: nat): (e: Option<Error>)
    requires i <= |s|
    decreases |s| - i
  {
    if i == |s| then None else if Fault(s, i).Some? then Fault(s, i) else FirstFault(s, i + 1)
  }

  lemma {:induction false} ScanFault(s: seq<byte>, i: nat, value: nat, padding: nat)
    requires |s| % 4 == 0 && |s| >= 4 && i <= 4 && padding <= if i <= 2 then 0 else i - 2
    requires padding > 0 <==> (i == 3 && s[2] == PAD) || (i == 4 && (s[2] == PAD || s[3] == PAD))
    ensures var r := Scan(s[..4], |s| == 4, i, value, padding);
            if r.Err? then FirstFault(s, i) == Some(r.error) else FirstFault(s, i) == FirstFault(s, 4)
    decreases 4 - i
  {
    if i < 4 {
      var c := s[i];
      assert s[..4][i] == c;
      if c == PAD {
        if |s| == 4 && i >= 2 {
          ScanFault(s, i + 1, value * 64, padding + 1);
        }
      } else if padding == 0 && IsSymbol(c) {
        ScanFault(s, i + 1, value * 64 + Sextet(c).value, padding);
      }
    }
  }

  lemma {:induction false} FaultShift(s: seq<byte>, i: nat)
    requires |s| % 4 == 0 && 4 <= i <= |s|
    ensures FirstFault(s, i) == FirstFault(s[4..], i - 4)
    decreases |s| - i
  {
    if i < |s| {
      assert s[i] == s[4..][i - 4] && i % 4 == (i - 4) % 4;
      assert i % 4 == 3 ==> s[i - 1] == s[4..][i - 5];
      FaultShift(s, i + 1);
    }
  }

  lemma {:induction false} GroupsFault(s: seq<byte>)
    requires |s| % 4 == 0
    ensures match DecodeGroups(s)
            case Ok(_) => FirstFault(s, 0) == None
            case Err(e) => FirstFault(s, 0) == Some(e)
  {
    if s != [] {
      ScanFault(s, 0, 0, 0);
      FaultShift(s, 4);
      GroupsFault(s[4..]);
    }
  }

  /** The error of a refused text is its length's, or that of the first character at fault from the left. */
  lemma DecodeFailsIff(text: seq<byte>, e: Error)
    ensures Decoded(text) == Err(e) <==>
            if |Strip(text)| % 4 != 0 then e == NotWholeGroups(|Strip(text)|) else FirstFault(Strip(text), 0) == Some(e)
  {
    if |Strip(text)| % 4 == 0 {
      GroupsFault(Strip(text));
    }
  }

  /** Stripping drops tabs, line feeds, form feeds, carriage returns and spaces, and nothing else. */
  lemma {:induction false} StripIsFilter(text: seq<byte>, c: byte)
    ensures multiset(Strip(text))[c] == if c in [9, 10, 12, 13, 32] then 0 else multiset(text)[c]
  {
    if text != [] {
      StripIsFilter(text[1..], c);
      var rest := Strip(text[1..]);
      assert text == [text[0]] + text[1..];
      assert !IsAsciiWhitespace(text[0]) ==> multiset([text[0]] + rest) == multiset{text[0]} + multiset(rest);
    }
  }
}
