/** Fixed-width positional notation: digits, value and order agree. */
module Positional {

  function Pow(b: nat, k: nat): (r: nat)
    requires b > 0
    ensures r > 0
  {
    if k == 0 then 1 else MulPositive(b, Pow(b, k - 1)); b * Pow(b, k - 1)
  }

  lemma MulPositive(x: nat, y: nat)
    requires x > 0 && y > 0
    ensures x * y > 0
  {}

  ghost predicate Digits(ds: seq<nat>, b: nat) { forall i :: 0 <= i < |ds| ==> ds[i] < b }

  /** Most significant digit first. */
  function ValueOf(ds: seq<nat>, b: nat): nat {
    if |ds| == 0 then 0 else ValueOf(ds[..|ds| - 1], b) * b + ds[|ds| - 1]
  }

  /** The k lowest digits of n. */
  function ToDigits(n: nat, b: nat, k: nat): (ds: seq<nat>)
    requires b > 0
    ensures |ds| == k
    decreases k
  {
    if k == 0 then [] else ToDigits(n / b, b, k - 1) + [n % b]
  }

  lemma MulMono(x: nat, y: nat, z: nat)
    requires x <= y
    ensures x * z <= y * z
  {}

  lemma DivUnique(n: nat, d: nat, q: nat, r: nat)
    requires d > 0 && r < d && n == q * d + r
    ensures n / d == q && n % d == r
  {
    var p, s := n / d, n % d;
    assert n == p * d + s;
    if p < q { MulMono(p + 1, q, d); }
    if q < p { MulMono(q + 1, p, d); }
  }

  lemma DivMod(n: nat, b: nat)
    requires b > 0
    ensures n / b * b + n % b == n && n % b < b
  {}

  lemma DivLess(n: nat, b: nat, p: nat)
    requires b > 0 && n < b * p
    ensures n / b < p
  {
    DivMod(n, b);
    if n / b >= p { MulMono(p, n / b, b); }
  }

  lemma LessMul(v: nat, d: nat, b: nat, p: nat)
    requires b > 0 && v < p && d < b
    ensures v * b + d < b * p
  {
    MulMono(v + 1, p, b);
  }

  lemma Regroup(u: nat, v: nat, r: nat, a: nat, b: nat)
    ensures (u * b + v) * a + r == u * (a * b) + (v * a + r)
  {
    assert (u * b + v) * a == u * b * a + v * a;
    assert u * b * a == u * (b * a);
    assert b * a == a * b;
  }

  lemma DivDiv(n: nat, a: nat, b: nat)
    requires a > 0 && b > 0
    ensures a * b > 0 && n / (a * b) == n / a / b
  {
    MulPositive(a, b);
    var q, r := n / a, n % a;
    DivMod(n, a);
    DivMod(q, b);
    var u, v := q / b, q % b;
    Regroup(u, v, r, a, b);
    LessMul(v, r, a, b);
    DivUnique(n, a * b, u, v * a + r);
  }

  /** Reading back the digits of a number that fits gives the number. */
  lemma {:induction false} ValueOfToDigits(n: nat, b: nat, k: nat)
    requires b > 0 && n < Pow(b, k)
    ensures ValueOf(ToDigits(n, b, k), b) == n && Digits(ToDigits(n, b, k), b)
    decreases k
  {
    if k > 0 {
      DivLess(n, b, Pow(b, k - 1));
      ValueOfToDigits(n / b, b, k - 1);
      DivMod(n, b);
      assert ToDigits(n, b, k)[..k - 1] == ToDigits(n / b, b, k - 1);
    }
  }

  /** The value of k digits fits k places, and its digits are those digits. */
  lemma {:induction false} ToDigitsOfValue(ds: seq<nat>, b: nat)
    requires b > 0 && Digits(ds, b)
    ensures ValueOf(ds, b) < Pow(b, |ds|) && ToDigits(ValueOf(ds, b), b, |ds|) == ds
  {
    if |ds| > 0 {
      var front, last := ds[..|ds| - 1], ds[|ds| - 1];
      ToDigitsOfValue(front, b);
      LessMul(ValueOf(front, b), last, b, Pow(b, |front|));
      DivUnique(ValueOf(ds, b), b, ValueOf(front, b), last);
      assert ds == front + [last];
    }
  }

  /** The number without its j lowest digits. */
  function Shifted(n: nat, b: nat, j: nat): nat
    requires b > 0
  {
    n / Pow(b, j)
  }

  lemma ShiftedOnce(n: nat, b: nat, j: nat)
    requires b > 0
    ensures Shifted(n, b, j + 1) == Shifted(n / b, b, j)
  {
    var p := Pow(b, j);
    assert Pow(b, j + 1) == b * p;
    DivDiv(n, b, p);
  }

  /** The i-th digit is the number shifted down to it. */
  lemma {:induction false} DigitIsShift(n: nat, b: nat, k: nat, i: nat)
    requires b > 0 && i < k
    ensures ToDigits(n, b, k)[i] == Shifted(n, b, k - 1 - i) % b
    decreases k
  {
    if i < k - 1 {
      hide Shifted;
      DigitIsShift(n / b, b, k - 1, i);
      ShiftedOnce(n, b, k - 2 - i);
    } else {
      assert Shifted(n, b, 0) == n;
    }
  }

  /** Dictionary order of equally long digit strings. */
  ghost predicate Before(x: seq<nat>, y: seq<nat>) {
    exists k :: 0 <= k < |x| && k < |y| && x[..k] == y[..k] && x[k] < y[k]
  }

  lemma {:induction false} BeforeByFront(x: seq<nat>, y: seq<nat>)
    requires |x| == |y| > 0
    ensures var a, b := x[..|x| - 1], y[..|y| - 1];
      Before(x, y) <==> Before(a, b) || (a == b && x[|x| - 1] < y[|y| - 1])
  {
    var a, b, m := x[..|x| - 1], y[..|y| - 1], |x| - 1;
    if Before(x, y) {
      var k :| 0 <= k < |x| && k < |y| && x[..k] == y[..k] && x[k] < y[k];
      if k < m { assert a[..k] == x[..k] && b[..k] == y[..k] && a[k] < b[k]; }
    }
    if Before(a, b) {
      var k :| 0 <= k < |a| && k < |b| && a[..k] == b[..k] && a[k] < b[k];
      assert x[..k] == a[..k] && y[..k] == b[..k] && x[k] < y[k];
    }
    if a == b && x[m] < y[m] { assert x[..m] == y[..m]; }
  }

  lemma PlacesOrder(p: nat, q: nat, c: nat, d: nat, b: nat)
    requires c < b && d < b
    ensures p * b + c < q * b + d <==> p < q || (p == q && c < d)
    ensures p * b + c == q * b + d <==> p == q && c == d
  {
    if p < q { MulMono(p + 1, q, b); }
    if q < p { MulMono(q + 1, p, b); }
  }

  /** Digit order is numeric order. */
  lemma {:induction false} OrderIsValue(x: seq<nat>, y: seq<nat>, b: nat)
    requires b > 0 && |x| == |y| && Digits(x, b) && Digits(y, b)
    ensures Before(x, y) <==> ValueOf(x, b) < ValueOf(y, b)
    ensures x == y <==> ValueOf(x, b) == ValueOf(y, b)
  {
    if |x| > 0 {
      hide Before;
      var m := |x| - 1;
      var u, v := x[..m], y[..m];
      OrderIsValue(u, v, b);
      BeforeByFront(x, y);
      assert x == u + [x[m]] && y == v + [y[m]];
      PlacesOrder(ValueOf(u, b), ValueOf(v, b), x[m], y[m], b);
    }
  }
}

/** ULID text: the Crockford base-32 form of a 16-byte id (Encoding and Sorting
    sections of the ULID specification), as `export.ulid_str` writes it. */
module Ulid {
  import opened Positional

  type Byte = b: nat | b < 256

  type Blob = seq<Byte>

  const BYTES: nat := 16    // bytes of an id
  const PLACES: nat := 26   // characters of its text

  const CROCKFORD := "0123456789ABCDEFGHJKMNPQRSTVWXYZ"
  const HEX := "0123456789abcdef"

  function AsNats(blob: Blob): (r: seq<nat>)
    ensures |r| == |blob| && Digits(r, 256)
  {
    seq(|blob|, i requires 0 <= i < |blob| => blob[i] as nat)
  }

  /** `int.from_bytes(data, "big")`. */
  function IntOf(blob: Blob): nat { ValueOf(AsNats(blob), 256) }

  function HexOf(blob: Blob): (s: string)
    ensures |s| == 2 * |blob|
  {
    if |blob| == 0 then "" else HexOf(blob[..|blob| - 1]) + [HEX[blob[|blob| - 1] / 16], HEX[blob[|blob| - 1] % 16]]
  }

  /** Sixteen bytes become 26 characters, five bits each from bit 125 down; any
      other length is spelled out in hex. */
  function UlidStr(blob: Blob): string {
    if |blob| != 16 then "hex:" + HexOf(blob)
    else
      var n := IntOf(blob);
      seq(26, i requires 0 <= i < 26 => CROCKFORD[Shifted(n, 2, 125 - 5 * i) % 32])
  }

  lemma {:induction false} PowTwoFive(k: nat)
    ensures Pow(2, 5 * k) == Pow(32, k)
  {
    if k > 0 {
      PowTwoFive(k - 1);
      var m := 5 * (k - 1);
      assert Pow(2, m + 5) == 2 * Pow(2, m + 4);
      assert Pow(2, m + 4) == 2 * Pow(2, m + 3);
      assert Pow(2, m + 3) == 2 * Pow(2, m + 2);
      assert Pow(2, m + 2) == 2 * Pow(2, m + 1);
      assert Pow(2, m + 1) == 2 * Pow(2, m);
    }
  }

  lemma {:induction false} PowTwoEight(k: nat)
    ensures Pow(2, 8 * k) == Pow(256, k)
  {
    if k > 0 {
      PowTwoEight(k - 1);
      var m := 8 * (k - 1);
      assert Pow(2, m + 8) == 2 * Pow(2, m + 7);
      assert Pow(2, m + 7) == 2 * Pow(2, m + 6);
      assert Pow(2, m + 6) == 2 * Pow(2, m + 5);
      assert Pow(2, m + 5) == 2 * Pow(2, m + 4);
      assert Pow(2, m + 4) == 2 * Pow(2, m + 3);
      assert Pow(2, m + 3) == 2 * Pow(2, m + 2);
      assert Pow(2, m + 2) == 2 * Pow(2, m + 1);
      assert Pow(2, m + 1) == 2 * Pow(2, m);
    }
  }

  lemma TopPlaces()
    ensures Pow(256, BYTES) == 8 * Pow(32, PLACES - 1) && Pow(32, PLACES) == 32 * Pow(32, PLACES - 1)
  {
    PowTwoEight(BYTES);
    PowTwoFive(PLACES - 1);
    var m := 5 * (PLACES - 1);
    assert Pow(2, m + 3) == 2 * Pow(2, m + 2);
    assert Pow(2, m + 2) == 2 * Pow(2, m + 1);
    assert Pow(2, m + 1) == 2 * Pow(2, m);
  }

  /** A 128-bit number leaves the two top places of a 130-bit text empty. */
  lemma TopDigit(n: nat)
    requires n < Pow(32, PLACES)
    ensures ToDigits(n, 32, PLACES)[0] < 8 <==> n < Pow(256, BYTES)
  {
    hide ToDigits, Pow, ValueOf;
    TopPlaces();
    DigitIsShift(n, 32, PLACES, 0);
    var p := Pow(32, PLACES - 1);
    assert n < 32 * p;
    DivLessIff(n, p, 32);
    DivLessIff(n, p, 8);
  }

  lemma DivLessIff(n: nat, p: nat, m: nat)
    requires p > 0
    ensures n / p < m <==> n < m * p
  {
    DivMod(n, p);
    if n / p < m { MulMono(n / p + 1, m, p); } else { MulMono(m, n / p, p); }
  }

  function IndexIn(alphabet: string, c: char): (i: nat)
    ensures c in alphabet ==> i < |alphabet| && alphabet[i] == c
    ensures i <= |alphabet|
  {
    if |alphabet| == 0 then 0 else if alphabet[0] == c then 0 else 1 + IndexIn(alphabet[1..], c)
  }

  ghost predicate Rising(alphabet: string) {
    forall i, j :: 0 <= i < j < |alphabet| ==> alphabet[i] < alphabet[j]
  }

  lemma CrockfordRises()
    ensures |CROCKFORD| == 32 && Rising(CROCKFORD)
  {
    assert forall i :: 0 <= i < 31 ==> CROCKFORD[i] < CROCKFORD[i + 1];
    RisingFromSteps(CROCKFORD);
  }

  lemma HexRises()
    ensures |HEX| == 16 && Rising(HEX)
  {
    assert forall i :: 0 <= i < 15 ==> HEX[i] < HEX[i + 1];
    RisingFromSteps(HEX);
  }

  lemma RisingFromSteps(s: string)
    requires forall i :: 0 <= i < |s| - 1 ==> s[i] < s[i + 1]
    ensures Rising(s)
  {
    forall i, j | 0 <= i < j < |s| ensures s[i] < s[j] { StepsAddUp(s, i, j); }
  }

  lemma {:induction false} StepsAddUp(s: string, i: nat, j: nat)
    requires forall i :: 0 <= i < |s| - 1 ==> s[i] < s[i + 1]
    requires i < j < |s|
    ensures s[i] < s[j]
    decreases j
  {
    if i < j - 1 { StepsAddUp(s, i, j - 1); assert s[j - 1] < s[j - 1 + 1]; }
  }

  /** The five-bit groups behind the text. */
  function Groups(blob: Blob): seq<nat>
    requires |blob| == 16
  {
    ToDigits(IntOf(blob), 32, PLACES)
  }

  lemma TextIsGroups(blob: Blob)
    requires |blob| == 16
    ensures |UlidStr(blob)| == 26 && Digits(Groups(blob), 32) && ValueOf(Groups(blob), 32) == IntOf(blob)
    ensures forall i :: 0 <= i < 26 ==> UlidStr(blob)[i] == CROCKFORD[Groups(blob)[i]]
    ensures Groups(blob)[0] < 8
  {
    hide ToDigits, Pow, ValueOf;
    var n := IntOf(blob);
    ToDigitsOfValue(AsNats(blob), 256);
    TopPlaces();
    ValueOfToDigits(n, 32, PLACES);
    TopDigit(n);
    forall i | 0 <= i < 26 ensures UlidStr(blob)[i] == CROCKFORD[Groups(blob)[i]] { LetterAt(blob, i); }
  }

  lemma LetterAt(blob: Blob, i: nat)
    requires |blob| == 16 && i < 26 && Groups(blob)[i] < 32
    ensures UlidStr(blob)[i] == CROCKFORD[Groups(blob)[i]]
  {
    hide ToDigits, Pow, ValueOf;
    PowTwoFive(25 - i);
    assert 125 - 5 * i == 5 * (25 - i);
    DigitIsShift(IntOf(blob), 32, PLACES, i);
  }

  /** Strings a 16-byte id can have. */
  predicate IsUlidText(s: string) {
    && |s| == 26
    && (forall i :: 0 <= i < 26 ==> s[i] in CROCKFORD)
    && s[0] <= '7'
  }

  function IndicesOf(s: string): seq<nat> {
    seq(|s|, i requires 0 <= i < |s| => IndexIn(CROCKFORD, s[i]))
  }

  /** The base-32 reader: the reference inverse. */
  function Decode(s: string): Blob
    requires IsUlidText(s)
  {
    var n := ValueOf(IndicesOf(s), 32);
    seq(16, i requires 0 <= i < 16 => Shifted(n, 256, 15 - i) % 256)
  }

  lemma IndexOfLetter(d: nat)
    requires d < 32
    ensures IndexIn(CROCKFORD, CROCKFORD[d]) == d
  {
    CrockfordRises();
    var i := IndexIn(CROCKFORD, CROCKFORD[d]);
    assert CROCKFORD[d] in CROCKFORD;
    assert CROCKFORD[i] == CROCKFORD[d];
  }

  lemma FirstLetter(d: nat)
    requires d < 32
    ensures CROCKFORD[d] <= '7' <==> d < 8
  {
    CrockfordRises();
    assert CROCKFORD[7] == '7';
    assert d < 7 ==> CROCKFORD[d] < CROCKFORD[7];
    assert d > 7 ==> CROCKFORD[7] < CROCKFORD[d];
  }

  /** Text of 16 bytes is ULID text: 26 letters of the alphabet, the first at most '7'. */
  lemma TextIsUlid(blob: Blob)
    requires |blob| == 16
    ensures IsUlidText(UlidStr(blob))
  {
    TextIsGroups(blob);
    FirstLetter(Groups(blob)[0]);
    hide Groups;
  }

  lemma DecodeDigits(s: string)
    requires IsUlidText(s)
    ensures AsNats(Decode(s)) == ToDigits(ValueOf(IndicesOf(s), 32), 256, BYTES)
  {
    hide ToDigits, Pow, ValueOf;
    var n := ValueOf(IndicesOf(s), 32);
    forall i | 0 <= i < 16 ensures AsNats(Decode(s))[i] == ToDigits(n, 256, BYTES)[i] {
      DigitIsShift(n, 256, BYTES, i);
    }
  }

  lemma SameNats(a: Blob, b: Blob)
    requires AsNats(a) == AsNats(b)
    ensures a == b
  {
    assert |a| == |AsNats(a)| == |AsNats(b)| == |b|;
    forall i | 0 <= i < |a| ensures a[i] == b[i] { assert AsNats(a)[i] == AsNats(b)[i]; }
  }

  lemma IndicesOfText(blob: Blob)
    requires |blob| == 16
    ensures IndicesOf(UlidStr(blob)) == Groups(blob)
  {
    hide ToDigits, Pow, ValueOf, Shifted;
    TextIsGroups(blob);
    var s := UlidStr(blob);
    forall i | 0 <= i < 26 ensures IndicesOf(s)[i] == Groups(blob)[i] {
      IndexOfLetter(Groups(blob)[i]);
    }
  }

  /** Decoding what was written gives the id back. */
  lemma {:induction false} DecodeOfText(blob: Blob)
    requires |blob| == 16
    ensures IsUlidText(UlidStr(blob)) && Decode(UlidStr(blob)) == blob
  {
    hide ToDigits, Pow, ValueOf, Shifted, Decode, AsNats, UlidStr, IndicesOf;
    TextIsUlid(blob);
    TextIsGroups(blob);
    var s := UlidStr(blob);
    IndicesOfText(blob);
    ToDigitsOfValue(AsNats(blob), 256);
    DecodeDigits(s);
    SameNats(Decode(s), blob);
  }

  /** Writing what was decoded gives the text back: the code is onto ULID text. */
  lemma {:induction false} TextOfDecode(s: string)
    requires IsUlidText(s)
    ensures |Decode(s)| == 16 && UlidStr(Decode(s)) == s
  {
    hide ToDigits, Pow, ValueOf;
    var ds := IndicesOf(s);
    var n := ValueOf(ds, 32);
    ToDigitsOfValue(ds, 32);
    assert CROCKFORD[ds[0]] == s[0];
    FirstLetter(ds[0]);
    TopDigit(n);
    DecodeDigits(s);
    ValueOfToDigits(n, 256, BYTES);
    TextIsGroups(Decode(s));
    assert Groups(Decode(s)) == ds;
  }

  /** Dictionary order of texts. */
  ghost predicate TextBefore(x: string, y: string) {
    exists k :: 0 <= k < |x| && k < |y| && x[..k] == y[..k] && x[k] < y[k]
  }

  /** Text order is byte order. */
  lemma {:induction false} TextOrderIsByteOrder(a: Blob, b: Blob)
    requires |a| == |b| == 16
    ensures TextBefore(UlidStr(a), UlidStr(b)) <==> Before(AsNats(a), AsNats(b))
  {
    TextIsGroups(a);
    TextIsGroups(b);
    OrderIsValue(AsNats(a), AsNats(b), 256);
    OrderIsValue(Groups(a), Groups(b), 32);
    LetterOrder(Groups(a), Groups(b), UlidStr(a), UlidStr(b));
  }

  lemma LetterOrder(g: seq<nat>, h: seq<nat>, x: string, y: string)
    requires |g| == |h| == |x| == |y| && Digits(g, 32) && Digits(h, 32)
    requires forall i :: 0 <= i < |g| ==> x[i] == CROCKFORD[g[i]] && y[i] == CROCKFORD[h[i]]
    ensures TextBefore(x, y) <==> Before(g, h)
  {
    CrockfordRises();
    forall i | 0 <= i < |g|
      ensures (g[i] < h[i] <==> x[i] < y[i]) && (g[i] == h[i] <==> x[i] == y[i])
    {
      assert g[i] < h[i] ==> CROCKFORD[g[i]] < CROCKFORD[h[i]];
      assert h[i] < g[i] ==> CROCKFORD[h[i]] < CROCKFORD[g[i]];
    }
    forall k | 0 <= k < |g| ensures g[..k] == h[..k] <==> x[..k] == y[..k] {
      if x[..k] == y[..k] {
        forall i | 0 <= i < k ensures g[i] == h[i] { assert x[..k][i] == y[..k][i]; }
      }
      if g[..k] == h[..k] {
        forall i | 0 <= i < k ensures x[i] == y[i] { assert g[..k][i] == h[..k][i]; }
      }
    }
    if TextBefore(x, y) {
      var k :| 0 <= k < |x| && k < |y| && x[..k] == y[..k] && x[k] < y[k];
      assert g[..k] == h[..k] && g[k] < h[k];
    }
    if Before(g, h) {
      var k :| 0 <= k < |g| && k < |h| && g[..k] == h[..k] && g[k] < h[k];
      assert x[..k] == y[..k] && x[k] < y[k];
    }
  }

  lemma HexLetters(x: Byte, y: Byte)
    requires HEX[x / 16] == HEX[y / 16] && HEX[x % 16] == HEX[y % 16]
    ensures x == y
  {
    HexRises();
    assert x / 16 == y / 16 && x % 16 == y % 16;
  }

  lemma {:induction false} HexInjective(a: Blob, b: Blob)
    requires HexOf(a) == HexOf(b)
    ensures a == b
  {
    assert |a| == |b|;
    if |a| > 0 {
      var x, y := a[|a| - 1], b[|b| - 1];
      var u, v := HexOf(a[..|a| - 1]), HexOf(b[..|b| - 1]);
      var s, t := u + [HEX[x / 16], HEX[x % 16]], v + [HEX[y / 16], HEX[y % 16]];
      assert s == t;
      assert s[..|u|] == u && t[..|v|] == v;
      assert s[|u|] == HEX[x / 16] && t[|v|] == HEX[y / 16] && s[|u| + 1] == HEX[x % 16] && t[|v| + 1] == HEX[y % 16];
      HexInjective(a[..|a| - 1], b[..|b| - 1]);
      HexLetters(x, y);
      assert a == a[..|a| - 1] + [x] && b == b[..|b| - 1] + [y];
    }
  }

  /** No two ids, of any length, share a text. */
  lemma UlidStrInjective(a: Blob, b: Blob)
    requires UlidStr(a) == UlidStr(b)
    ensures a == b
  {
    FormsDiffer(a);
    FormsDiffer(b);
    if |a| == 16 {
      DecodeOfText(a);
      DecodeOfText(b);
    } else {
      assert HexOf(a) == UlidStr(a)[4..] == UlidStr(b)[4..] == HexOf(b);
      HexInjective(a, b);
    }
  }

  /** The hex form starts with a letter the alphabet lacks. */
  lemma FormsDiffer(a: Blob)
    ensures |UlidStr(a)| > 0 && (UlidStr(a)[0] == 'h' <==> |a| != 16)
  {
    if |a| == 16 {
      TextIsUlid(a);
      assert 'h' !in CROCKFORD;
    }
  }
}
