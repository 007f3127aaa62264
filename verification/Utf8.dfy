/** UTF-8 as Go's unicode/utf8 reads and writes it (section 3 of RFC 3629): a byte that
    begins no valid sequence decodes to U+FFFD and counts as one. */
module Utf8 {
  import opened Bytes

  const RUNE_ERROR := 0xFFFD

  predicate Scalar(r: int) { 0 <= r < 0xD800 || 0xE000 <= r < 0x110000 }

  /** Length of the sequence a lead byte announces; 0 for a byte that leads none. */
  function Need(b: Byte): nat {
    if b < 0x80 then 1
    else if b < 0xC2 then 0
    else if b < 0xE0 then 2
    else if b < 0xF0 then 3
    else if b < 0xF5 then 4
    else 0
  }

  predicate Continuation(b: Byte) { 0x80 <= b < 0xC0 }

  /** The second byte is restricted further after some lead bytes. */
  predicate Second(lead: Byte, b: Byte) {
    && Continuation(b)
    && (lead == 0xE0 ==> b >= 0xA0)
    && (lead == 0xED ==> b < 0xA0)
    && (lead == 0xF0 ==> b >= 0x90)
    && (lead == 0xF4 ==> b < 0x90)
  }

  predicate ValidFront(s: Str) {
    && s != []
    && 1 <= Need(s[0]) <= |s|
    && (Need(s[0]) >= 2 ==> Second(s[0], s[1]))
    && (Need(s[0]) >= 3 ==> Continuation(s[2]))
    && (Need(s[0]) >= 4 ==> Continuation(s[3]))
  }

  /** Six more bits below a. */
  function Push(a: int, b: int): int { a * 0x40 + (b - 0x80) }

  function Value(s: Str): int
    requires ValidFront(s)
  {
    var lead: int := s[0];
    match Need(s[0])
    case 1 => lead
    case 2 => Push(lead - 0xC0, s[1])
    case 3 => Push(Push(lead - 0xE0, s[1]), s[2])
    case _ => Push(Push(Push(lead - 0xF0, s[1]), s[2]), s[3])
  }

  /** utf8.DecodeRuneInString: the rune at the front and its width. */
  function Decode(s: Str): (d: (int, nat))
    requires s != []
    ensures 1 <= d.1 <= 4 && d.1 <= |s|
    ensures Scalar(d.0)
  {
    if ValidFront(s) then (Value(s), Need(s[0])) else (RUNE_ERROR, 1)
  }

  /** string(r). */
  function Encode(r: int): Str
    requires Scalar(r)
  {
    if r < 0x80 then [r]
    else if r < 0x800 then [0xC0 + r / 0x40, 0x80 + r % 0x40]
    else
      var q := r / 0x40;
      if r < 0x10000 then [0xE0 + q / 0x40, 0x80 + q % 0x40, 0x80 + r % 0x40]
      else [0xF0 + q / 0x40 / 0x40, 0x80 + q / 0x40 % 0x40, 0x80 + q % 0x40, 0x80 + r % 0x40]
  }

  /** One whole encoded rune and nothing else. */
  ghost predicate Unit(s: Str) {
    ValidFront(s) && |s| == Need(s[0])
  }

  lemma PushPop(a: int, b: int)
    requires 0 <= a && 0x80 <= b < 0xC0
    ensures Push(a, b) / 0x40 == a && 0x80 + Push(a, b) % 0x40 == b
  {
  }

  lemma PopPush(r: int)
    requires 0 <= r
    ensures Push(r / 0x40, 0x80 + r % 0x40) == r
  {
  }

  lemma EncodeUnit(r: int)
    requires Scalar(r)
    ensures Unit(Encode(r)) && Value(Encode(r)) == r
  {
    var q := r / 0x40;
    PopPush(r);
    PopPush(q);
    PopPush(q / 0x40);
  }

  /** Writing back what was read gives the bytes read. */
  lemma EncodeValue(s: Str)
    requires ValidFront(s)
    ensures Encode(Value(s)) == s[..Need(s[0])]
  {
    var lead: int := s[0];
    if Need(s[0]) == 2 {
      PushPop(lead - 0xC0, s[1]);
    } else if Need(s[0]) == 3 {
      var q := Push(lead - 0xE0, s[1]);
      PushPop(lead - 0xE0, s[1]);
      PushPop(q, s[2]);
    } else if Need(s[0]) == 4 {
      var t := Push(lead - 0xF0, s[1]);
      var q := Push(t, s[2]);
      PushPop(lead - 0xF0, s[1]);
      PushPop(t, s[2]);
      PushPop(q, s[3]);
    }
  }

  lemma UnitInside(s: Str, k: nat)
    requires Unit(s) && 0 < k < |s|
    ensures Continuation(s[k])
  {
  }

  /** Cutting after the first rune does not change how it is read. */
  lemma DecodePrefix(s: Str, n: nat)
    requires s != [] && Decode(s).1 <= n <= |s|
    ensures Decode(s[..n]) == Decode(s)
  {
    var t := s[..n];
    assert t[0] == s[0];
    if ValidFront(t) {
      assert ValidFront(s);
    }
  }

  // ---------- concatenations of encoded runes ----------

  ghost predicate Units(units: seq<Str>) {
    forall k | 0 <= k < |units| :: Unit(units[k])
  }

  lemma {:induction false} FlatConcat(a: seq<Str>, b: seq<Str>)
    ensures Flat(a + b) == Flat(a) + Flat(b)
  {
    if a == [] {
      assert a + b == b;
    } else {
      assert (a + b)[1..] == a[1..] + b;
      FlatConcat(a[1..], b);
    }
  }

  lemma FlatOne(unit: Str)
    ensures Flat([unit]) == unit
  {
    var none: seq<Str> := [unit][1..];
    assert none == [];
  }

  lemma FlatSplit(units: seq<Str>, k: nat)
    requires k <= |units|
    ensures Flat(units) == Flat(units[..k]) + Flat(units[k..])
  {
    assert units == units[..k] + units[k..];
    FlatConcat(units[..k], units[k..]);
  }

  lemma FlatMonotone(units: seq<Str>, a: nat, b: nat)
    requires a <= b <= |units|
    ensures |Flat(units[..a])| <= |Flat(units[..b])|
  {
    assert units[..b] == units[..a] + units[a..b];
    FlatConcat(units[..a], units[a..b]);
  }

  /** A lead byte in a concatenation of runes stands where a rune begins. */
  lemma {:induction false} LeadIsBoundary(units: seq<Str>, p: nat) returns (k: nat)
    requires Units(units) && p < |Flat(units)| && !Continuation(Flat(units)[p])
    ensures k < |units| && |Flat(units[..k])| == p
  {
    if p == 0 {
      k := 0;
      assert units[..0] == [];
    } else {
      var n := |units[0]|;
      assert p >= n by {
        if p < n { UnitInside(units[0], p); }
      }
      k := LeadIsBoundary(units[1..], p - n);
      assert units[..k + 1] == [units[0]] + units[1..][..k];
      FlatConcat([units[0]], units[1..][..k]);
      FlatOne(units[0]);
      k := k + 1;
    }
  }

  /** What stands at a boundary begins with the rune of that boundary. */
  lemma UnitAtBoundary(units: seq<Str>, k: nat)
    requires Units(units) && k < |units|
    ensures var p := |Flat(units[..k])|; var n := |units[k]|;
            p + n <= |Flat(units)| && Flat(units)[p..p + n] == units[k] && |Flat(units[..k + 1])| == p + n
  {
    FlatSplit(units, k);
    assert units[k..][0] == units[k];
    assert units[..k + 1] == units[..k] + [units[k]];
    FlatConcat(units[..k], [units[k]]);
    FlatOne(units[k]);
  }

  /** Reading runes from the same bytes gives the same runes. */
  lemma {:induction false} SamePrefix(hay: seq<Str>, needle: seq<Str>)
    requires Units(hay) && Units(needle)
    requires Flat(needle) <= Flat(hay)
    ensures needle <= hay
  {
    if needle != [] {
      var n, h := needle[0], hay[0];
      assert Flat(needle)[0] == n[0] && Flat(hay)[0] == h[0];
      assert n == Flat(needle)[..|n|] && h == Flat(hay)[..|h|];
      assert n == h;
      assert Flat(needle[1..]) == Flat(needle)[|n|..] && Flat(hay[1..]) == Flat(hay)[|n|..];
      SamePrefix(hay[1..], needle[1..]);
      assert needle == [n] + needle[1..] && hay == [h] + hay[1..];
    }
  }

  /** Self-synchronisation: where a non-empty run of runes occurs in another, it occurs as
      whole runes. */
  lemma Synchronised(hay: seq<Str>, needle: seq<Str>, p: nat) returns (a: nat)
    requires Units(hay) && Units(needle) && needle != []
    requires p + |Flat(needle)| <= |Flat(hay)| && Flat(hay)[p..p + |Flat(needle)|] == Flat(needle)
    ensures a + |needle| <= |hay| && hay[a..a + |needle|] == needle
    ensures |Flat(hay[..a])| == p && |Flat(hay[..a + |needle|])| == p + |Flat(needle)|
  {
    var h, n := Flat(hay), Flat(needle);
    assert n[0] == needle[0][0];
    assert h[p] == h[p..p + |n|][0];
    a := LeadIsBoundary(hay, p);
    FlatSplit(hay, a);
    var tail := hay[a..];
    assert Flat(tail) == h[p..] && h[p..][..|n|] == n;
    SamePrefix(tail, needle);
    assert hay[a..a + |needle|] == tail[..|needle|] == needle;
    assert hay[..a + |needle|] == hay[..a] + needle;
    FlatConcat(hay[..a], needle);
  }
}
