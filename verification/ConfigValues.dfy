/**
  What the values of a configuration mean, whatever white space stands around them: the Booleans, numbers and precisions
  that TypedConfigurations::build of external/easylogging++/easylogging++.cc makes of them.
 */
module ConfigValues {
  import opened Arithmetic
  import opened Decimals
  import opened Strings
  import opened TypedConfigurations

  // -------------------------------------------------------------------- white space around a value

  /** The text is a word with white space around it. */
  ghost predicate Pads(text: string, w: string) {
    Trimmed(w) && exists l, r :: AllSpace(l) && AllSpace(r) && text == l + w + r
  }

  lemma PadsIs(text: string, w: string)
    requires Pads(text, w)
    ensures Trim(text) == w
  {
    var l, r :| AllSpace(l) && AllSpace(r) && text == l + w + r;
    TrimPadded(l, w, r);
  }

  lemma {:induction false} LeftSplits(s: string) returns (l: string)
    ensures AllSpace(l) && s == l + TrimLeft(s) && (TrimLeft(s) != "" ==> !IsSpace(TrimLeft(s)[0]))
  {
    l := "";
    if s != "" && IsSpace(s[0]) {
      var more := LeftSplits(s[1..]);
      l := [s[0]] + more;
      assert s == [s[0]] + s[1..];
    }
  }

  lemma {:induction false} RightSplits(s: string) returns (r: string)
    ensures AllSpace(r) && s == TrimRight(s) + r
    ensures TrimRight(s) != "" ==> !IsSpace(TrimRight(s)[|TrimRight(s)| - 1])
  {
    r := "";
    if s != "" && IsSpace(s[|s| - 1]) {
      var n := |s| - 1;
      var more := RightSplits(s[..n]);
      r := more + [s[n]];
      assert s == s[..n] + [s[n]];
    }
  }

  /** Every text is such a word. */
  lemma TrimSplits(text: string)
    ensures Pads(text, Trim(text))
  {
    hide IsSpace;
    var r := RightSplits(text);
    var s := TrimRight(text);
    var l := LeftSplits(s);
    var w := TrimLeft(s);
    assert text == l + w + r;
    if w != "" {
      assert w[|w| - 1] == s[|s| - 1];
    }
  }

  // -------------------------------------------------------------------- what is meant

  ghost predicate MeansBool(text: string, b: bool) {
    forall w :: Pads(text, w) ==> (b <==> w == "TRUE" || w == "true" || w == "1")
  }

  /** Digits are their number, as far as it fits; everything else is zero. */
  ghost predicate MeansNumber(text: string, n: nat) {
    forall w :: Pads(text, w) ==>
                  n == if w != "" && AllDigits(w) then Min(Val(w), 9_223_372_036_854_775_807) else 0
  }

  /** The last 32 bits of a number are the width if they are one to six, else it is three; the offset goes with it. */
  ghost predicate MeansPrecision(text: string, p: Precision) {
    forall n: nat :: MeansNumber(text, n) ==>
                       && p.width == (if 1 <= n % 4_294_967_296 <= 6 then n % 4_294_967_296 else 3)
                       && p.offset == if p.width < 3 then 1000 else Power(6 - p.width)
  }

  function Power(k: nat): nat {
    if k == 0 then 1 else 10 * Power(k - 1)
  }

  /** A text means one thing only. */
  lemma OneMeaning(text: string)
    ensures forall a, b :: MeansBool(text, a) && MeansBool(text, b) ==> a == b
    ensures forall m: nat, n: nat :: MeansNumber(text, m) && MeansNumber(text, n) ==> m == n
  {
    hide Pads;
    TrimSplits(text);
  }

  lemma BoolIs(text: string)
    ensures MeansBool(text, GetBool(text))
  {
    hide Pads, Trim;
    forall w | Pads(text, w) ensures GetBool(text) <==> w == "TRUE" || w == "true" || w == "1" {
      PadsIs(text, w);
    }
  }

  lemma NumberIs(text: string)
    ensures MeansNumber(text, GetULong(text))
  {
    hide Pads, Trim, Val;
    forall w | Pads(text, w)
      ensures GetULong(text) == if w != "" && AllDigits(w) then Min(Val(w), 9_223_372_036_854_775_807) else 0
    {
      PadsIs(text, w);
    }
  }

  lemma PrecisionIs(text: string)
    ensures MeansPrecision(text, GetPrecision(text))
  {
    hide GetULong, MeansNumber;
    NumberIs(text);
    OneMeaning(text);
    assert Power(0) == 1 && Power(1) == 10 && Power(2) == 100 && Power(3) == 1000;
  }

  // -------------------------------------------------------------------- for one

  /** A number in decimal is read back, up to the largest long. */
  lemma DecimalIsRead(l: string, n: nat, r: string)
    requires AllSpace(l) && AllSpace(r)
    ensures GetULong(l + Decimal(n) + r) == Min(n, 0x7fff_ffff_ffff_ffff)
  {
    hide Trim, Val, Decimal;
    DecimalIs(n);
    TrimPadded(l, Decimal(n), r);
  }

  /** A width in decimal is read back; some that are not widths are taken for one, as the cast to int keeps 32 bits. */
  lemma WidthIsRead(l: string, n: nat, r: string)
    requires AllSpace(l) && AllSpace(r) && n <= 0x7fff_ffff_ffff_ffff
    ensures GetPrecision(l + Decimal(n) + r).width == n <==> 1 <= n <= 6
    ensures GetPrecision(l + Decimal(n) + r).width == 3 <==> !(1 <= n % 0x1_0000_0000 <= 6) || n % 0x1_0000_0000 == 3
  {
    hide GetULong, Decimal;
    DecimalIsRead(l, n, r);
  }

  /** A digit is its number and nothing else. */
  lemma DigitMeans(d: nat)
    requires d < 10
    ensures MeansNumber([DigitChar(d)], d) && forall n: nat :: MeansNumber([DigitChar(d)], n) ==> n == d
  {
    hide GetULong, MeansNumber;
    var s := [DigitChar(d)];
    DecimalIsRead("", d, "");
    assert "" + Decimal(d) + "" == s;
    NumberIs(s);
    OneMeaning(s);
  }

  lemma TrueMeans()
    ensures forall b :: MeansBool("true", b) ==> b
  {
    assert "true" == "" + "true" + "" && AllSpace("");
    assert Pads("true", "true");
  }
}
