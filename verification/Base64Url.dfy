/**
 * Padded base64url (sections 3.2 and 5 of RFC 4648), as Go's URLEncoding reads
 * and writes it: bytes are packed into sextets, and sextets are spelt out.
 */
module Base64Url {
  import opened Wrappers

  /** Stands for the padding character among the sextets. */
  const PAD := 64

  ghost predicate IsBytes(b: seq<int>) {
    forall i :: 0 <= i < |b| ==> 0 <= b[i] < 256
  }

  // ---- Bytes and sextets ----

  /** Three bytes are four sextets. */
  function Group(a: int, b: int, c: int): seq<int> {
    [a / 4, a % 4 * 16 + b / 16, b % 16 * 4 + c / 64, c % 64]
  }

  function Pack(b: seq<int>): seq<int> {
    if b == [] then []
    else if |b| == 1 then [b[0] / 4, b[0] % 4 * 16, PAD, PAD]
    else if |b| == 2 then [b[0] / 4, b[0] % 4 * 16 + b[1] / 16, b[1] % 16 * 4, PAD]
    else Group(b[0], b[1], b[2]) + Pack(b[3..])
  }

  /** Padding is accepted only where it ends the input; the bits it cuts off are not looked at. */
  function Unpack(q: seq<int>): Option<seq<int>> {
    if q == [] then Some([])
    else if |q| < 4 || q[0] == PAD || q[1] == PAD then None
    else
      var first := q[0] * 4 + q[1] / 16;
      if q[2] == PAD then
        if q[3] == PAD && |q| == 4 then Some([first]) else None
      else
        var second := q[1] % 16 * 16 + q[2] / 4;
        if q[3] == PAD then
          if |q| == 4 then Some([first, second]) else None
        else
          match Unpack(q[4..])
          case None => None
          case Some(rest) => Some([first, second, q[2] % 4 * 64 + q[3]] + rest)
  }

  lemma FirstByte(a: int, low: int, x: int)
    requires 0 <= a < 256 && 0 <= low < 16 && x == a % 4 * 16 + low
    ensures 0 <= a / 4 < PAD && 0 <= x < PAD && a / 4 * 4 + x / 16 == a && x % 16 == low
  {
  }

  lemma SecondByte(b: int, low: int, y: int)
    requires 0 <= b < 256 && 0 <= low < 4 && y == b % 16 * 4 + low
    ensures 0 <= b / 16 < 16 && 0 <= y < PAD && b / 16 * 16 + y / 4 == b && y % 4 == low
  {
  }

  lemma UnpackOne(a: int)
    requires 0 <= a < 256
    ensures Unpack(Pack([a])) == Some([a]) && forall i :: 0 <= i < 4 ==> 0 <= Pack([a])[i] <= PAD
  {
    FirstByte(a, 0, a % 4 * 16);
  }

  lemma UnpackTwo(a: int, b: int)
    requires 0 <= a < 256 && 0 <= b < 256
    ensures Unpack(Pack([a, b])) == Some([a, b]) && forall i :: 0 <= i < 4 ==> 0 <= Pack([a, b])[i] <= PAD
  {
    SecondByte(b, 0, b % 16 * 4);
    FirstByte(a, b / 16, a % 4 * 16 + b / 16);
  }

  lemma UnpackThree(a: int, b: int, c: int, q: seq<int>)
    requires 0 <= a < 256 && 0 <= b < 256 && 0 <= c < 256 && Unpack(q).Some?
    ensures Unpack(Group(a, b, c) + q) == Some([a, b, c] + Unpack(q).value)
    ensures forall i :: 0 <= i < 4 ==> 0 <= Group(a, b, c)[i] <= PAD
  {
    SecondByte(b, c / 64, b % 16 * 4 + c / 64);
    FirstByte(a, b / 16, a % 4 * 16 + b / 16);
    assert (Group(a, b, c) + q)[4..] == q;
  }

  lemma {:induction false} PackRoundTrip(b: seq<int>)
    requires IsBytes(b)
    ensures Unpack(Pack(b)) == Some(b)
    ensures forall i :: 0 <= i < |Pack(b)| ==> 0 <= Pack(b)[i] <= PAD
    ensures |Pack(b)| >= |b|
  {
    hide Unpack, Group;
    if b == [] {
      UnpackNone();
    } else if |b| == 1 {
      UnpackOne(b[0]);
      assert b == [b[0]];
    } else if |b| == 2 {
      UnpackTwo(b[0], b[1]);
      assert b == [b[0], b[1]];
    } else {
      PackRoundTrip(b[3..]);
      PackThree(b);
      UnpackThree(b[0], b[1], b[2], Pack(b[3..]));
      assert b == [b[0], b[1], b[2]] + b[3..];
    }
  }

  lemma UnpackNone()
    ensures Unpack([]) == Some([])
  {
  }

  lemma PackThree(b: seq<int>)
    requires |b| >= 3
    ensures Pack(b) == Group(b[0], b[1], b[2]) + Pack(b[3..]) && |Group(b[0], b[1], b[2])| == 4
  {
  }

  lemma {:induction false} UnpacksToBytes(q: seq<int>)
    requires forall i :: 0 <= i < |q| ==> 0 <= q[i] <= PAD
    ensures Unpack(q).Some? ==> IsBytes(Unpack(q).value)
  {
    if |q| >= 4 {
      UnpacksToBytes(q[4..]);
      assert q[0] != PAD && q[1] != PAD ==> 0 <= q[0] * 4 + q[1] / 16 < 256;
      assert q[2] != PAD ==> 0 <= q[1] % 16 * 16 + q[2] / 4 < 256;
      assert q[3] != PAD ==> 0 <= q[2] % 4 * 64 + q[3] < 256;
    }
  }

  // ---- Sextets and characters ----

  function Symbol(n: int): char
    requires 0 <= n <= PAD
  {
    if n < 26 then 'A' + n as char
    else if n < 52 then 'a' + (n - 26) as char
    else if n < 62 then '0' + (n - 52) as char
    else if n == 62 then '-'
    else if n == 63 then '_' else '='
  }

  function Sextet(c: char): Option<int> {
    if 'A' <= c <= 'Z' then Some(c as int - 'A' as int)
    else if 'a' <= c <= 'z' then Some(c as int - 'a' as int + 26)
    else if '0' <= c <= '9' then Some(c as int - '0' as int + 52)
    else if c == '-' then Some(62)
    else if c == '_' then Some(63)
    else if c == '=' then Some(PAD) else None
  }

  function Spell(q: seq<int>): string
    requires forall i :: 0 <= i < |q| ==> 0 <= q[i] <= PAD
  {
    if q == [] then "" else [Symbol(q[0])] + Spell(q[1..])
  }

  /** Line breaks are skipped wherever they stand. */
  function Read(s: string): (r: Option<seq<int>>)
    ensures r.Some? ==> forall i :: 0 <= i < |r.value| ==> 0 <= r.value[i] <= PAD
  {
    if s == "" then Some([])
    else if s[0] == '\r' || s[0] == '\n' then Read(s[1..])
    else match (Sextet(s[0]), Read(s[1..]))
      case (Some(n), Some(q)) => Some([n] + q)
      case _ => None
  }

  lemma SymbolRoundTrip(n: int)
    requires 0 <= n <= PAD
    ensures Sextet(Symbol(n)) == Some(n) && Symbol(n) != '\r' && Symbol(n) != '\n'
  {
  }

  lemma {:induction false} SpellRoundTrip(q: seq<int>)
    requires forall i :: 0 <= i < |q| ==> 0 <= q[i] <= PAD
    ensures Read(Spell(q)) == Some(q) && |Spell(q)| == |q|
  {
    hide Symbol, Sextet;
    if q != [] {
      SymbolRoundTrip(q[0]);
      SpellRoundTrip(q[1..]);
      assert Spell(q)[1..] == Spell(q[1..]);
      assert q == [q[0]] + q[1..];
    }
  }

  // ---- What is written ----

  /** The URL-safe alphabet of table 2 of RFC 4648, and the padding character. */
  lemma SymbolsAreTheAlphabet(n: int)
    requires 0 <= n <= PAD
    ensures n < 26 ==> Symbol(n) == "ABCDEFGHIJKLMNOPQRSTUVWXYZ"[n]
    ensures 26 <= n < 52 ==> Symbol(n) == "abcdefghijklmnopqrstuvwxyz"[n - 26]
    ensures 52 <= n ==> Symbol(n) == "0123456789-_="[n - 52]
  {
  }

  lemma SpelledAt(q: seq<int>, i: nat)
    requires (forall j :: 0 <= j < |q| ==> 0 <= q[j] <= PAD) && i < |q|
    ensures |Spell(q)| == |q| && Spell(q)[i] == Symbol(q[i])
  {
    if i > 0 {
      SpelledAt(q[1..], i - 1);
    }
  }

  /** Four sextets as one number of 24 bits; padding counts as zero. */
  function Bits(q: seq<int>): int
    requires |q| == 4
  {
    var z := seq(4, i requires 0 <= i < 4 => if q[i] == PAD then 0 else q[i]);
    z[0] * 0x4_0000 + z[1] * 0x1000 + z[2] * 0x40 + z[3]
  }

  lemma {:induction false} PackLength(b: seq<int>)
    ensures |Pack(b)| == (|b| + 2) / 3 * 4
  {
    if |b| >= 3 {
      PackLength(b[3..]);
    }
  }

  /** Packing goes three bytes at a time. */
  lemma {:induction false} PackGroup(b: seq<int>, i: nat)
    requires IsBytes(b) && 3 * i < |b|
    ensures |Pack(b[3 * i..])| >= 4
    ensures 4 * i + 4 <= |Pack(b)| && Pack(b)[4 * i..4 * i + 4] == Pack(b[3 * i..])[..4]
  {
    hide Pack, Bits;
    FirstGroup(b);
    if i == 0 {
      assert b[0..] == b;
    } else {
      PackGroup(b[3..], i - 1);
      assert b[3..][3 * (i - 1)..] == b[3 * i..];
      assert Pack(b)[4 * i..4 * i + 4] == Pack(b)[4..][4 * (i - 1)..4 * (i - 1) + 4];
    }
  }

  /**
   * Every three bytes are four sextets with the same 24 bits; one or two bytes at the
   * end are filled up with zero bits, and padding stands for the sextets that have none.
   */
  lemma PackKeepsBits(b: seq<int>, i: nat)
    requires IsBytes(b) && 3 * i < |b|
    ensures 4 * i + 4 <= |Pack(b)| && |Pack(b)| == (|b| + 2) / 3 * 4
    ensures var q := Pack(b)[4 * i..4 * i + 4];
            && Bits(q) == b[3 * i] * 0x1_0000 + (if 3 * i + 1 < |b| then b[3 * i + 1] * 0x100 else 0)
                          + (if 3 * i + 2 < |b| then b[3 * i + 2] else 0)
            && q[0] != PAD && q[1] != PAD && (q[2] == PAD <==> 3 * i + 1 >= |b|) && (q[3] == PAD <==> 3 * i + 2 >= |b|)
  {
    hide Pack, Bits;
    PackLength(b);
    PackGroup(b, i);
    FirstGroup(b[3 * i..]);
  }

  lemma FirstGroup(b: seq<int>)
    requires IsBytes(b) && b != []
    ensures |Pack(b)| >= 4 && Pack(b)[4..] == Pack(if |b| > 3 then b[3..] else []) && Pack([]) == []
    ensures var q := Pack(b)[..4];
            && Bits(q) == b[0] * 0x1_0000 + (if 1 < |b| then b[1] * 0x100 else 0) + (if 2 < |b| then b[2] else 0)
            && q[0] != PAD && q[1] != PAD && (q[2] == PAD <==> 1 >= |b|) && (q[3] == PAD <==> 2 >= |b|)
  {
    if |b| == 1 {
      GroupOfOne(b[0]);
    } else if |b| == 2 {
      GroupOfTwo(b[0], b[1]);
    } else {
      GroupOfThree(b[0], b[1], b[2]);
      assert |b| == 3 ==> b[3..] == [];
      assert Pack(b)[..4] == [b[0] / 4, b[0] % 4 * 16 + b[1] / 16, b[1] % 16 * 4 + b[2] / 64, b[2] % 64];
    }
  }

  lemma GroupOfOne(a: int)
    requires 0 <= a < 256
    ensures a / 4 != PAD && a % 4 * 16 != PAD && a / 4 * 0x4_0000 + a % 4 * 16 * 0x1000 == a * 0x1_0000
  {
  }

  lemma GroupOfTwo(a: int, b: int)
    requires 0 <= a < 256 && 0 <= b < 256
    ensures a / 4 != PAD && a % 4 * 16 + b / 16 != PAD && b % 16 * 4 != PAD
    ensures a / 4 * 0x4_0000 + (a % 4 * 16 + b / 16) * 0x1000 + b % 16 * 4 * 0x40 == a * 0x1_0000 + b * 0x100
  {
  }

  lemma GroupOfThree(a: int, b: int, c: int)
    requires 0 <= a < 256 && 0 <= b < 256 && 0 <= c < 256
    ensures a / 4 != PAD && a % 4 * 16 + b / 16 != PAD && b % 16 * 4 + c / 64 != PAD && c % 64 != PAD
    ensures a / 4 * 0x4_0000 + (a % 4 * 16 + b / 16) * 0x1000 + (b % 16 * 4 + c / 64) * 0x40 + c % 64
            == a * 0x1_0000 + b * 0x100 + c
  {
  }

  // ---- The codec ----

  function Encode(b: seq<int>): string
    requires IsBytes(b)
  {
    PackRoundTrip(b);
    Spell(Pack(b))
  }

  function Decode(s: string): (r: Option<seq<int>>)
    ensures r.Some? ==> IsBytes(r.value)
  {
    match Read(s)
    case None => None
    case Some(q) => UnpacksToBytes(q); Unpack(q)
  }

  /** Every byte string decodes from its own encoding, and only the empty one encodes to nothing. */
  lemma RoundTrip(b: seq<int>)
    requires IsBytes(b)
    ensures Decode(Encode(b)) == Some(b)
    ensures Encode(b) == "" <==> b == []
  {
    PackRoundTrip(b);
    SpellRoundTrip(Pack(b));
  }
}
