/** Bit decomposition of a value through its binary string. */
module BitVectors {
  import opened PowersOfTwo
  import opened Scalars
  import opened CurveGroup
  import opened Vectors

  /** fmt.Sprintf("%b", v) */
  function Binary(v: nat): (s: string)
    ensures |s| > 0 && forall i :: 0 <= i < |s| ==> s[i] == '0' || s[i] == '1'
  {
    if v < 2 then [if v == 0 then '0' else '1']
    else Binary(v / 2) + [if v % 2 == 0 then '0' else '1']
  }

  method PadLeft(str: string, pad: char, l: nat) returns (strCopy: string)
    ensures strCopy == seq(if |str| < l then l - |str| else 0, _ => pad) + str
  {
    strCopy := str;
    var i := 0;
    while |strCopy| < l
      invariant |strCopy| == |str| + i && (|str| + i <= l || i == 0)
      invariant strCopy == seq(i, _ => pad) + str
      decreases l - |strCopy|
    {
      strCopy := [pad] + strCopy;
      i := i + 1;
    }
  }

  function Digit(ch: char): int {
    if ch == '1' then 1 else 0
  }

  method StrToBigIntArray(str: string) returns (r: seq<int>)
    requires forall i :: 0 <= i < |str| ==> str[i] == '0' || str[i] == '1'
    ensures |r| == |str| && forall i :: 0 <= i < |str| ==> r[i] == Digit(str[i])
  {
    r := [];
    for i := 0 to |str|
      invariant |r| == i && forall j :: 0 <= j < i ==> r[j] == Digit(str[j])
    {
      r := r + [Digit(str[i])];
    }
  }

  method Reverse(l: seq<int>) returns (r: seq<int>)
    ensures |r| == |l| && forall i :: 0 <= i < |l| ==> r[i] == l[|l| - 1 - i]
  {
    r := [];
    for i := 0 to |l|
      invariant |r| == i && forall j :: 0 <= j < i ==> r[j] == l[|l| - 1 - j]
    {
      r := r + [l[|l| - i - 1]];
    }
  }

  /** The little-endian bits of v, padded with zeros to length l; longer if v does not fit. */
  function Bits(v: nat, l: nat): seq<int> {
    if v < 2 && l <= 1 then [v]
    else [v % 2] + Bits(v / 2, if l > 0 then l - 1 else 0)
  }

  /** The chain of helpers: pad the binary string, read its digits, reverse them. */
  method BitVector(v: nat, l: nat) returns (r: seq<int>)
    ensures r == Bits(v, l)
  {
    var padded := PadLeft(Binary(v), '0', l);
    var digits := StrToBigIntArray(padded);
    r := Reverse(digits);
    var zeros := if |Binary(v)| < l then l - |Binary(v)| else 0;
    forall i | 0 <= i < |r| ensures |Bits(v, l)| == |r| && r[i] == Bits(v, l)[i] {
      BitsAt(v, l, i);
    }
    BitsAt(v, l, 0);
  }

  /** Bits against the padded binary string. */
  lemma {:induction false} BitsAt(v: nat, l: nat, i: nat)
    requires i < if |Binary(v)| < l then l else |Binary(v)|
    ensures |Bits(v, l)| == if |Binary(v)| < l then l else |Binary(v)|
    ensures Bits(v, l)[i] == if i < |Binary(v)| then Digit(Binary(v)[|Binary(v)| - 1 - i]) else 0
    decreases v, l
  {
    if v < 2 && l <= 1 {
    } else {
      var l' := if l > 0 then l - 1 else 0;
      if v < 2 { assert v / 2 == 0 && Binary(v / 2) == "0"; }
      BitsAt(v / 2, l', if i == 0 then 0 else i - 1);
    }
  }

  /** The number a little-endian bit vector stands for. */
  function Value(b: seq<int>): int {
    if b == [] then 0 else b[0] + 2 * Value(b[1..])
  }

  /** The vector has the wanted length exactly when the value fits, and always stands for the value. */
  lemma {:induction false} BitsOk(v: nat, l: nat)
    requires l > 0
    ensures Value(Bits(v, l)) == v && (|Bits(v, l)| == l <==> v < Two(l)) && |Bits(v, l)| >= l
    ensures forall i :: 0 <= i < |Bits(v, l)| ==> Bits(v, l)[i] == 0 || Bits(v, l)[i] == 1
    decreases v, l
  {
    if v < 2 && l <= 1 {
    } else {
      var l' := if l > 1 then l - 1 else 1;
      BitsOk(v / 2, l');
      if l == 1 {
        BitsZero(v / 2);
        assert v >= 2;
      }
      var b := Bits(v, l);
      assert b[1..] == Bits(v / 2, l - 1);
    }
  }

  lemma BitsZero(v: nat)
    ensures Bits(v, 0) == Bits(v, 1)
  {
  }

  ghost function Twos(l: nat): (r: seq<int>)
    ensures |r| == l && forall i {:trigger r[i]} :: 0 <= i < l ==> r[i] == Two(i)
  {
    seq(l, i requires i >= 0 => Two(i) as int)
  }

  lemma {:induction false} ValueSnoc(b: seq<int>, d: int)
    ensures Value(b + [d]) == Value(b) + d * Two(|b|)
  {
    if b == [] {
      assert [d][1..] == [];
    } else {
      ValueSnoc(b[1..], d);
      assert (b + [d])[1..] == b[1..] + [d];
      assert 2 * (d * Two(|b| - 1)) == d * Two(|b|);
    }
  }

  /** <b, 2^l> is the value. */
  lemma {:induction false} DotTwos(b: seq<int>)
    ensures Dot(b, Twos(|b|)) == Value(b)
  {
    if b != [] {
      var m := |b| - 1;
      DotTwos(b[..m]);
      ValueSnoc(b[..m], b[m]);
      assert b[..m] + [b[m]] == b;
      assert Twos(|b|)[..m] == Twos(m);
    }
  }

  lemma {:induction false} TotalTwos(l: nat)
    ensures Total(Twos(l)) == Two(l) - 1
  {
    if l > 0 {
      TotalTwos(l - 1);
      assert Twos(l)[..l - 1] == Twos(l - 1);
    }
  }

  lemma {:induction false} PowTwo(i: nat)
    ensures Pow(2, i) == Two(i)
  {
    if i > 0 { PowTwo(i - 1); }
  }
}
