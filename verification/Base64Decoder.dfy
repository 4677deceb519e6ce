/**
 The base64 branch of the MIME decoder: one pass with a 32-bit accumulator that is never masked and
 keeps wrapping around, against the grouped encoding of section 4 of RFC 4648.
 */
module Base64Decoder {

  type Byte = b: int | 0 <= b < 256

  type Sextet = b: int | 0 <= b < 64

  // ------------------------------------------------------------------ the alphabet

  predicate InAlphabet(c: char) {
    'A' <= c <= 'Z' || 'a' <= c <= 'z' || '0' <= c <= '9' || c == '+' || c == '/'
  }

  /** The position of a character in the table. */
  function Index(c: char): Sextet
    requires InAlphabet(c)
  {
    if 'A' <= c <= 'Z' then c as int - 'A' as int
    else if 'a' <= c <= 'z' then c as int - 'a' as int + 26
    else if '0' <= c <= '9' then c as int - '0' as int + 52
    else if c == '+' then 62 else 63
  }

  function Letter(x: Sextet): (c: char)
    ensures InAlphabet(c) && Index(c) == x
  {
    if x < 26 then (x + 'A' as int) as char
    else if x < 52 then (x - 26 + 'a' as int) as char
    else if x < 62 then (x - 52 + '0' as int) as char
    else if x == 62 then '+' else '/'
  }

  // ------------------------------------------------------------------ the meaning of a text

  /** The values of the alphabet characters; everything else is skipped. */
  function Sextets(data: string): seq<Sextet> {
    if data == [] then []
    else
      var c := data[|data| - 1];
      Sextets(data[..|data| - 1]) + (if InAlphabet(c) then [Index(c)] else [])
  }

  /** The three ways in which two neighbouring sextets share a byte. */
  function First(a: Sextet, b: Sextet): Byte { a * 4 + b / 16 }

  function Second(b: Sextet, c: Sextet): Byte { b % 16 * 16 + c / 4 }

  function Third(c: Sextet, d: Sextet): Byte { c % 4 * 64 + d }

  /** Four elements make three; two or three left over make one or two. */
  function GroupsBy<S, B>(x: seq<S>, first: (S, S) -> B, second: (S, S) -> B, third: (S, S) -> B): seq<B> {
    if |x| >= 4 then
      [first(x[0], x[1]), second(x[1], x[2]), third(x[2], x[3])] + GroupsBy(x[4..], first, second, third)
    else if |x| == 3 then [first(x[0], x[1]), second(x[1], x[2])]
    else if |x| == 2 then [first(x[0], x[1])]
    else []
  }

  function Groups(x: seq<Sextet>): seq<Byte> {
    GroupsBy(x, First, Second, Third)
  }

  function Decoded(data: string): seq<Byte> {
    Groups(Sextets(data))
  }

  // ------------------------------------------------------------------ the pass

  /** Two's complement, 32 bits. */
  function Wrap32(x: int): int {
    (x + 0x8000_0000) % 0x1_0000_0000 - 0x8000_0000
  }

  /** `(val >> shift) & 0xFF` with the arithmetic shift of a signed value. */
  function LowByte(val: int, shift: int): Byte {
    (if shift == 0 then val else if shift == 2 then val / 4 else val / 16) % 256
  }

  /** How many elements of an unfinished group of four there are. */
  function Phase(n: nat): nat {
    n % 4
  }

  lemma PhaseRepeats(n: nat)
    ensures Phase(n + 4) == Phase(n) < 4 && (n < 4 ==> Phase(n) == n)
    ensures Phase(n + 1) == if Phase(n) == 3 then 0 else Phase(n) + 1
  {
  }

  /** What one more element completes. */
  function CompletedBy<S, B>(phase: nat, last: S, s: S, first: (S, S) -> B, second: (S, S) -> B, third: (S, S) -> B): seq<B> {
    if phase == 0 then [] else [if phase == 1 then first(last, s) else if phase == 2 then second(last, s) else third(last, s)]
  }

  function LastOr<S>(x: seq<S>, s: S): S {
    if x == [] then s else x[|x| - 1]
  }

  lemma GroupDecoded<S, B>(p: S, q: S, r: S, t: S, x: seq<S>, first: (S, S) -> B, second: (S, S) -> B, third: (S, S) -> B)
    ensures GroupsBy([p, q, r, t] + x, first, second, third)
            == [first(p, q), second(q, r), third(r, t)] + GroupsBy(x, first, second, third)
    ensures GroupsBy([p, q, r], first, second, third) == [first(p, q), second(q, r)]
    ensures GroupsBy([p, q], first, second, third) == [first(p, q)]
  {
    assert ([p, q, r, t] + x)[4..] == x;
  }

  lemma GroupsUpToFour<S, B>(a: S, b: S, c: S, d: S, first: (S, S) -> B, second: (S, S) -> B, third: (S, S) -> B)
    ensures GroupsBy([], first, second, third) == [] == GroupsBy([a], first, second, third)
    ensures GroupsBy([a, b], first, second, third) == GroupsBy([a], first, second, third) + [first(a, b)]
    ensures GroupsBy([a, b, c], first, second, third) == GroupsBy([a, b], first, second, third) + [second(b, c)]
    ensures GroupsBy([a, b, c, d], first, second, third) == GroupsBy([a, b, c], first, second, third) + [third(c, d)]
  {
    GroupDecoded(a, b, c, d, [], first, second, third);
    assert [a, b, c, d] + [] == [a, b, c, d];
  }

  lemma GroupsGrowNone<S, B>(x: seq<S>, s: S, first: (S, S) -> B, second: (S, S) -> B, third: (S, S) -> B)
    requires |x| == 0
    ensures GroupsBy(x + [s], first, second, third) == GroupsBy(x, first, second, third) + []
  {
    assert x == [] && x + [s] == [s];
    GroupsUpToFour(s, s, s, s, first, second, third);
  }

  lemma GroupsGrowOne<S, B>(x: seq<S>, s: S, first: (S, S) -> B, second: (S, S) -> B, third: (S, S) -> B)
    requires |x| == 1
    ensures GroupsBy(x + [s], first, second, third) == GroupsBy(x, first, second, third) + [first(x[0], s)]
  {
    assert x == [x[0]] && x + [s] == [x[0], s];
    GroupsUpToFour(x[0], s, s, s, first, second, third);
  }

  lemma GroupsGrowTwo<S, B>(x: seq<S>, s: S, first: (S, S) -> B, second: (S, S) -> B, third: (S, S) -> B)
    requires |x| == 2
    ensures GroupsBy(x + [s], first, second, third) == GroupsBy(x, first, second, third) + [second(x[1], s)]
  {
    assert x == [x[0], x[1]] && x + [s] == [x[0], x[1], s];
    GroupsUpToFour(x[0], x[1], s, s, first, second, third);
  }

  lemma GroupsGrowThree<S, B>(x: seq<S>, s: S, first: (S, S) -> B, second: (S, S) -> B, third: (S, S) -> B)
    requires |x| == 3
    ensures GroupsBy(x + [s], first, second, third) == GroupsBy(x, first, second, third) + [third(x[2], s)]
  {
    assert x == [x[0], x[1], x[2]] && x + [s] == [x[0], x[1], x[2], s];
    GroupsUpToFour(x[0], x[1], x[2], s, first, second, third);
  }

  lemma GroupsGrowShort<S, B>(x: seq<S>, s: S, first: (S, S) -> B, second: (S, S) -> B, third: (S, S) -> B)
    requires |x| < 4
    ensures GroupsBy(x + [s], first, second, third)
            == GroupsBy(x, first, second, third) + CompletedBy(|x|, LastOr(x, s), s, first, second, third)
  {
    if |x| == 0 {
      GroupsGrowNone(x, s, first, second, third);
    } else if |x| == 1 {
      GroupsGrowOne(x, s, first, second, third);
    } else if |x| == 2 {
      GroupsGrowTwo(x, s, first, second, third);
    } else {
      GroupsGrowThree(x, s, first, second, third);
    }
  }

  lemma {:induction false} GroupsGrow<S, B>(x: seq<S>, s: S, phase: nat, first: (S, S) -> B, second: (S, S) -> B, third: (S, S) -> B)
    requires phase == Phase(|x|)
    ensures GroupsBy(x + [s], first, second, third)
            == GroupsBy(x, first, second, third) + CompletedBy(phase, LastOr(x, s), s, first, second, third)
  {
    if |x| < 4 {
      PhaseRepeats(|x|);
      GroupsGrowShort(x, s, first, second, third);
    } else {
      var t := x[4..];
      PhaseRepeats(|t|);
      GroupsGrow(t, s, phase, first, second, third);
      GroupDecoded(x[0], x[1], x[2], x[3], t, first, second, third);
      GroupDecoded(x[0], x[1], x[2], x[3], t + [s], first, second, third);
      assert x == [x[0], x[1], x[2], x[3]] + t;
      assert x + [s] == [x[0], x[1], x[2], x[3]] + (t + [s]);
      if t == [] { PhaseRepeats(0); }
    }
  }

  /** The low twelve bits survive the wrap: they are the last two sextets. */
  lemma LastTwo(val: int, last: Sextet, s: Sextet)
    requires val % 64 == last
    ensures Wrap32(val * 64 + s) % 4096 == last * 64 + s
  {
    var q := val / 64;
    var w := val * 64 + s;
    var k := (w + 0x8000_0000) / 0x1_0000_0000;
    assert Wrap32(w) == (q - k * 0x10_0000) * 4096 + (last * 64 + s);
  }

  lemma DividedBy16(x: int, k: int, r: int)
    requires x == 16 * k + r && 0 <= r < 16
    ensures x / 16 == k
  {
  }

  lemma DividedBy4(x: int, k: int, r: int)
    requires x == 4 * k + r && 0 <= r < 4
    ensures x / 4 == k
  {
  }

  lemma Modulo256(x: int, k: int, r: int)
    requires x == 256 * k + r && 0 <= r < 256
    ensures x % 256 == r
  {
  }

  lemma FirstOut(val: int, last: Sextet, s: Sextet)
    requires val % 4096 == last * 64 + s
    ensures LowByte(val, 4) == First(last, s)
  {
    var q := val / 4096;
    DividedBy16(val, 256 * q + 4 * last + s / 16, s % 16);
    Modulo256(val / 16, q, First(last, s));
  }

  lemma SecondOut(val: int, last: Sextet, s: Sextet)
    requires val % 4096 == last * 64 + s
    ensures LowByte(val, 2) == Second(last, s)
  {
    var q := val / 4096;
    DividedBy4(val, 1024 * q + 16 * last + s / 4, s % 4);
    Modulo256(val / 4, 4 * q + last / 16, Second(last, s));
  }

  lemma ThirdOut(val: int, last: Sextet, s: Sextet)
    requires val % 4096 == last * 64 + s
    ensures LowByte(val, 0) == Third(last, s)
  {
    Modulo256(val, 16 * (val / 4096) + last / 4, Third(last, s));
  }

  lemma LowSix(val: int, last: Sextet, s: Sextet)
    requires val % 4096 == last * 64 + s
    ensures val % 64 == s
  {
    assert val == 64 * (64 * (val / 4096) + last) + s;
  }

  /** How many bits wait in the accumulator, minus eight. */
  function Waiting(phase: nat): int {
    if phase == 0 then -8 else if phase == 1 then -2 else if phase == 2 then -4 else -6
  }

  /** One sextet into the accumulator: what comes out is the byte it completes. */
  lemma ByteOut(val: int, phase: nat, last: Sextet, s: Sextet)
    requires 0 < phase < 4 && val % 4096 == last * 64 + s
    ensures [LowByte(val, Waiting(phase) + 6)] == CompletedBy(phase, last, s, First, Second, Third)
  {
    if phase == 1 {
      FirstOut(val, last, s);
    } else if phase == 2 {
      SecondOut(val, last, s);
    } else {
      ThirdOut(val, last, s);
    }
  }

  /** The pass after the sextets `x`: the complete bytes are out, the last sextet is at the bottom. */
  ghost predicate Absorbed(x: seq<Sextet>, out: seq<Byte>, val: int, valb: int) {
    out == Groups(x) && valb == Waiting(Phase(|x|)) && (x != [] ==> val % 64 == x[|x| - 1])
  }

  lemma BottomSextet(val: int, s: Sextet)
    ensures Wrap32(val * 64 + s) % 64 == s
    ensures Wrap32(val * 64 + s) % 4096 == val % 64 * 64 + s
  {
    LastTwo(val, val % 64, s);
    LowSix(Wrap32(val * 64 + s), val % 64, s);
  }

  lemma Absorbs(x: seq<Sextet>, out: seq<Byte>, val: int, valb: int, s: Sextet)
    requires Absorbed(x, out, val, valb)
    ensures var val', valb' := Wrap32(val * 64 + s), valb + 6;
            if valb' >= 0 then Absorbed(x + [s], out + [LowByte(val', valb')], val', valb' - 8)
            else Absorbed(x + [s], out, val', valb')
  {
    var phase := Phase(|x|);
    PhaseRepeats(|x|);
    GroupsGrow(x, s, phase, First, Second, Third);
    BottomSextet(val, s);
    if phase > 0 {
      ByteOut(Wrap32(val * 64 + s), phase, LastOr(x, s), s);
    }
  }

  method Decode(data: string) returns (out: seq<Byte>)
    ensures out == Decoded(data)
  {
    out := [];
    var val, valb := 0, -8;
    ghost var x: seq<Sextet> := [];
    for i := 0 to |data|
      invariant x == Sextets(data[..i]) && Absorbed(x, out, val, valb)
    {
      assert data[..i + 1][..i] == data[..i];
      var c := data[i];
      if InAlphabet(c) {
        var s := Index(c);
        Absorbs(x, out, val, valb, s);
        x := x + [s];
        val := Wrap32(val * 64 + s);
        valb := valb + 6;
        if valb >= 0 {
          out := out + [LowByte(val, valb)];
          valb := valb - 8;
        }
      }
    }
    assert data[..|data|] == data;
  }

  // ------------------------------------------------------------------ round trip

  /** The sextets of the bytes a, b, c. */
  function Top(a: Byte): Sextet { a / 4 }

  function Cross1(a: Byte, b: Byte): Sextet { a % 4 * 16 + b / 16 }

  function Cross2(b: Byte, c: Byte): Sextet { b % 16 * 4 + c / 64 }

  function Bottom(c: Byte): Sextet { c % 64 }

  lemma Regrouped(a: Byte, b: Byte, c: Byte)
    ensures First(Top(a), Cross1(a, b)) == a && Second(Cross1(a, b), Cross2(b, c)) == b && Third(Cross2(b, c), Bottom(c)) == c
  {
  }

  /** The encoding of section 4 of RFC 4648, with its padding. */
  function Encode(b: seq<Byte>): string {
    if |b| >= 3 then
      [Letter(Top(b[0])), Letter(Cross1(b[0], b[1])), Letter(Cross2(b[1], b[2])), Letter(Bottom(b[2]))] + Encode(b[3..])
    else if |b| == 2 then [Letter(Top(b[0])), Letter(Cross1(b[0], b[1])), Letter(Cross2(b[1], 0)), '=']
    else if |b| == 1 then [Letter(Top(b[0])), Letter(Cross1(b[0], 0)), '=', '=']
    else ""
  }

  lemma {:induction false} SextetsJoin(a: string, b: string)
    ensures Sextets(a + b) == Sextets(a) + Sextets(b)
  {
    if b == [] {
      assert a + b == a;
    } else {
      SextetsJoin(a, b[..|b| - 1]);
      assert (a + b)[..|a + b| - 1] == a + b[..|b| - 1];
    }
  }

  lemma FourSextets(a: char, b: char, c: char, d: char)
    ensures Sextets([a, b, c, d]) == Sextets([a]) + Sextets([b]) + Sextets([c]) + Sextets([d])
  {
    SextetsJoin([a], [b]);
    SextetsJoin([a] + [b], [c]);
    SextetsJoin([a] + [b] + [c], [d]);
    assert [a] + [b] + [c] + [d] == [a, b, c, d];
  }

  lemma OneSextet(x: Sextet)
    ensures Sextets([Letter(x)]) == [x] && Sextets("=") == []
  {
    assert [Letter(x)][..0] == [] && "="[..0] == [];
  }

  lemma LettersRead(p: Sextet, q: Sextet, r: Sextet, t: Sextet)
    ensures Sextets([Letter(p), Letter(q), Letter(r), Letter(t)]) == [p, q, r, t]
    ensures Sextets([Letter(p), Letter(q), Letter(r), '=']) == [p, q, r]
    ensures Sextets([Letter(p), Letter(q), '=', '=']) == [p, q]
  {
    OneSextet(p); OneSextet(q); OneSextet(r); OneSextet(t);
    FourSextets(Letter(p), Letter(q), Letter(r), Letter(t));
    FourSextets(Letter(p), Letter(q), Letter(r), '=');
    FourSextets(Letter(p), Letter(q), '=', '=');
  }

  /** Encoding puts one complete group in front. */
  lemma GroupEncoded(b: seq<Byte>)
    requires |b| >= 3
    ensures Sextets(Encode(b)) == [Top(b[0]), Cross1(b[0], b[1]), Cross2(b[1], b[2]), Bottom(b[2])] + Sextets(Encode(b[3..]))
  {
    var p, q, r, t := Top(b[0]), Cross1(b[0], b[1]), Cross2(b[1], b[2]), Bottom(b[2]);
    LettersRead(p, q, r, t);
    SextetsJoin([Letter(p), Letter(q), Letter(r), Letter(t)], Encode(b[3..]));
  }

  lemma RoundTripTwo(a: Byte, b: Byte)
    ensures Decoded(Encode([a, b])) == [a, b]
  {
    var p, q, r := Top(a), Cross1(a, b), Cross2(b, 0);
    assert Encode([a, b]) == [Letter(p), Letter(q), Letter(r), '='];
    LettersRead(p, q, r, 0);
    GroupDecoded(p, q, r, 0, [], First, Second, Third);
    Regrouped(a, b, 0);
  }

  lemma RoundTripOne(a: Byte)
    ensures Decoded(Encode([a])) == [a]
  {
    var p, q := Top(a), Cross1(a, 0);
    assert Encode([a]) == [Letter(p), Letter(q), '=', '='];
    LettersRead(p, q, 0, 0);
    GroupDecoded(p, q, 0, 0, [], First, Second, Third);
    Regrouped(a, 0, 0);
  }

  lemma RoundTripGroup(b: seq<Byte>)
    requires |b| >= 3 && Decoded(Encode(b[3..])) == b[3..]
    ensures Decoded(Encode(b)) == [b[0], b[1], b[2]] + b[3..]
  {
    GroupEncoded(b);
    GroupDecoded(Top(b[0]), Cross1(b[0], b[1]), Cross2(b[1], b[2]), Bottom(b[2]), Sextets(Encode(b[3..])), First, Second, Third);
    Regrouped(b[0], b[1], b[2]);
  }

  /** Decoding inverts encoding for byte strings of any length. */
  lemma {:induction false} RoundTrip(b: seq<Byte>)
    ensures Decoded(Encode(b)) == b
  {
    if |b| >= 3 {
      RoundTrip(b[3..]);
      RoundTripGroup(b);
      assert b == [b[0], b[1], b[2]] + b[3..];
    } else if |b| == 2 {
      RoundTripTwo(b[0], b[1]);
      assert b == [b[0], b[1]];
    } else if |b| == 1 {
      RoundTripOne(b[0]);
      assert b == [b[0]];
    }
  }

  lemma {:induction false} NoiseSilent(noise: string)
    requires forall c :: c in noise ==> !InAlphabet(c)
    ensures Sextets(noise) == []
  {
    if noise != [] {
      assert noise[|noise| - 1] in noise;
      assert forall c :: c in noise[..|noise| - 1] ==> c in noise;
      NoiseSilent(noise[..|noise| - 1]);
    }
  }

  /** Padding, line breaks and anything else outside the alphabet may be inserted anywhere, any number of times. */
  lemma NoiseIgnored(a: string, noise: string, b: string)
    requires forall c :: c in noise ==> !InAlphabet(c)
    ensures Decoded(a + noise + b) == Decoded(a + b)
  {
    NoiseSilent(noise);
    SextetsJoin(a, noise);
    SextetsJoin(a + noise, b);
    SextetsJoin(a, b);
    assert Sextets(a) + [] == Sextets(a);
  }

  /** Only the alphabet characters matter: texts with the same ones decode to the same bytes. */
  function Kept(data: string): string {
    if data == [] then []
    else Kept(data[..|data| - 1]) + (if InAlphabet(data[|data| - 1]) then [data[|data| - 1]] else [])
  }

  lemma {:induction false} OnlyAlphabetMatters(a: string, b: string)
    requires Kept(a) == Kept(b)
    ensures Decoded(a) == Decoded(b)
  {
    KeptDecides(a);
    KeptDecides(b);
  }

  lemma {:induction false} KeptDecides(data: string)
    ensures Sextets(data) == Sextets(Kept(data))
  {
    if data != [] {
      var c := data[|data| - 1];
      KeptDecides(data[..|data| - 1]);
      var last := if InAlphabet(c) then [c] else [];
      SextetsJoin(Kept(data[..|data| - 1]), last);
      assert last != [] ==> last[..0] == [];
    }
  }

  // ------------------------------------------------------------------ table and bits, in numbers

  const UPPER := "ABCDEFGHIJKLMNOPQRSTUVWXYZ"
  const LOWER := "abcdefghijklmnopqrstuvwxyz"
  const REST := "0123456789+/"

  lemma UpperLetters(x: Sextet)
    requires x < 26
    ensures Letter(x) == UPPER[x]
  {
  }

  lemma LowerLetters(x: Sextet)
    requires 26 <= x < 52
    ensures Letter(x) == LOWER[x - 26]
  {
  }

  lemma RestLetters(x: Sextet)
    requires 52 <= x
    ensures Letter(x) == REST[x - 52]
  {
  }

  /** The letters are those of the table in its order (Table 1 of RFC 4648). */
  lemma LettersAreTable(x: Sextet)
    ensures Letter(x) == (UPPER + LOWER + REST)[x]
  {
    hide Letter;
    if x < 26 { UpperLetters(x); } else if x < 52 { LowerLetters(x); } else { RestLetters(x); }
  }

  /** Four sextets and the three bytes they make are the same 24 bits, most significant first. */
  lemma SameBits(p: Sextet, q: Sextet, r: Sextet, t: Sextet)
    ensures (First(p, q) * 256 + Second(q, r)) * 256 + Third(r, t) == ((p * 64 + q) * 64 + r) * 64 + t
  {
  }
}
