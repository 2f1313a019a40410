/**
 * 32-bit words in network byte order.
 */
module Wire {
  import opened Bytes

  type word = w: int | 0 <= w < 0x1_0000_0000

  const TOP_BIT := 0x8000_0000

  /** nn_putl. */
  function PutL(w: word): (s: seq<byte>)
    ensures |s| == 4
  {
    [w / 0x100_0000, w / 0x1_0000 % 0x100, w / 0x100 % 0x100, w % 0x100]
  }

  /** nn_getl: the first four bytes. */
  function GetL(s: seq<byte>): (w: word)
    requires |s| >= 4
  {
    s[0] as int * 0x100_0000 + s[1] as int * 0x1_0000 + s[2] as int * 0x100 + s[3]
  }

  predicate TopBit(w: word) {
    w >= TOP_BIT
  }

  /** w | 0x80000000 */
  function WithTopBit(w: word): (r: word)
    ensures TopBit(r)
  {
    TOP_BIT + w % TOP_BIT
  }

  /** w & 0x7fffffff */
  function WithoutTopBit(w: word): (r: word)
    ensures !TopBit(r)
  {
    w % TOP_BIT
  }

  /** Setting and clearing the top bit touches no other bit. */
  lemma TopBitIs(w: word)
    ensures WithTopBit(w) == if TopBit(w) then w else w + TOP_BIT
    ensures WithoutTopBit(w) == if TopBit(w) then w - TOP_BIT else w
  {
  }

  /** A word is its four base-256 digits. */
  lemma Digits(w: word)
    ensures w == w / 0x100_0000 * 0x100_0000 + w / 0x1_0000 % 0x100 * 0x1_0000 + w / 0x100 % 0x100 * 0x100 + w % 0x100
  {
    var a, b, c := w / 0x100, w / 0x1_0000, w / 0x100_0000;
    assert a / 0x100 == b && b / 0x100 == c;
    assert w == a * 0x100 + w % 0x100 && a == b * 0x100 + a % 0x100 && b == c * 0x100 + b % 0x100;
  }

  lemma GetPut(w: word, rest: seq<byte>)
    ensures GetL(PutL(w) + rest) == w
    ensures (PutL(w) + rest)[4..] == rest
  {
    Digits(w);
    assert (PutL(w) + rest)[..4] == PutL(w);
  }

  lemma PutGet(s: seq<byte>)
    requires |s| >= 4
    ensures PutL(GetL(s)) == s[..4]
    ensures TopBit(GetL(s)) <==> s[0] >= 0x80
  {
    var w := GetL(s);
    assert w / 0x100_0000 == s[0];
    assert w / 0x1_0000 == s[0] as int * 0x100 + s[1];
    assert w / 0x100 == s[0] as int * 0x1_0000 + s[1] as int * 0x100 + s[2];
  }

  /** At the first byte in which they differ, `a` has the smaller one. */
  ghost predicate Before(a: seq<byte>, b: seq<byte>) {
    exists i :: 0 <= i < |a| && i < |b| && a[i] < b[i] && forall j :: 0 <= j < i ==> a[j] == b[j]
  }

  lemma BeforeIsLess(v: word, w: word)
    requires Before(PutL(v), PutL(w))
    ensures v < w
  {
    Digits(v);
    Digits(w);
    var a, b := PutL(v), PutL(w);
    var i :| 0 <= i < 4 && a[i] < b[i] && forall j :: 0 <= j < i ==> a[j] == b[j];
    if i > 0 { assert a[0] == b[0]; }
    if i > 1 { assert a[1] == b[1]; }
    if i > 2 { assert a[2] == b[2]; }
  }

  lemma DifferSomewhere(a: seq<byte>, b: seq<byte>)
    requires |a| == |b| == 4 && a != b
    ensures Before(a, b) || Before(b, a)
  {
    var i := if a[0] != b[0] then 0 else if a[1] != b[1] then 1 else if a[2] != b[2] then 2 else 3;
    assert a[i] != b[i] && forall j :: 0 <= j < i ==> a[j] == b[j];
  }

  /** Network byte order: words compare as their bytes do from the first on. */
  lemma WordOrder(v: word, w: word)
    ensures v < w <==> Before(PutL(v), PutL(w))
  {
    if Before(PutL(v), PutL(w)) {
      BeforeIsLess(v, w);
    } else if v < w {
      if PutL(v) == PutL(w) {
        Digits(v);
        Digits(w);
      } else {
        DifferSomewhere(PutL(v), PutL(w));
        BeforeIsLess(w, v);
      }
    }
  }

  // ---------------------------------------------------------------- counting modulo 2^31

  lemma ModTop(x: nat)
    ensures x % 0x1_0000_0000 % TOP_BIT == x % TOP_BIT
  {
  }

  lemma SameRest(a: nat, b: nat)
    ensures a % TOP_BIT == b % TOP_BIT <==> (a - b) % TOP_BIT == 0
  {
    assert a == TOP_BIT * (a / TOP_BIT) + a % TOP_BIT && b == TOP_BIT * (b / TOP_BIT) + b % TOP_BIT;
  }

  lemma SmallMultiple(x: int)
    requires x % TOP_BIT == 0 && -TOP_BIT < x < TOP_BIT
    ensures x == 0
  {
  }
}
