/** The hand-written scanner for JSON numbers, against the grammar of section 6 of RFC 8259. */
module JsonNumber {

  predicate Digit(c: char)
  {
    '0' <= c <= '9'
  }

  /** 1*DIGIT */
  predicate Digits(s: string)
  {
    s != "" && forall i :: 0 <= i < |s| ==> Digit(s[i])
  }

  /** int = zero / ( digit1-9 *DIGIT ) */
  predicate IsInt(s: string)
  {
    s == "0" || (Digits(s) && s[0] != '0')
  }

  /** frac = decimal-point 1*DIGIT */
  predicate IsFrac(s: string)
  {
    s != "" && s[0] == '.' && Digits(s[1..])
  }

  /** exp = e [ minus / plus ] 1*DIGIT */
  predicate IsExp(s: string)
  {
    s != "" && (s[0] == 'e' || s[0] == 'E') &&
    (Digits(s[1..]) || (|s| > 1 && (s[1] == '+' || s[1] == '-') && Digits(s[2..])))
  }

  /** number = [ minus ] int [ frac ] [ exp ], split at the given positions */
  predicate Splits(s: string, a: int, b: int, c: int)
  {
    && 0 <= a <= b <= c <= |s|
    && (s[..a] == "" || s[..a] == "-")
    && IsInt(s[a..b])
    && (b == c || IsFrac(s[b..c]))
    && (c == |s| || IsExp(s[c..]))
  }

  ghost predicate IsNumber(s: string)
  {
    exists a, b, c :: Splits(s, a, b, c)
  }

  /** The end of the longest run of digits that starts at `from`. */
  function DigitsEnd(s: string, from: nat): (end: nat)
    requires from <= |s|
    ensures from <= end <= |s|
    decreases |s| - from
  {
    if from < |s| && Digit(s[from]) then DigitsEnd(s, from + 1) else from
  }

  method SkipDigits(s: string, from: nat) returns (i: nat)
    requires from <= |s|
    ensures i == DigitsEnd(s, from)
  {
    i := from;
    while i < |s| && Digit(s[i])
      invariant i <= |s| && DigitsEnd(s, i) == DigitsEnd(s, from)
    {
      i := i + 1;
    }
  }

  // ---------------------------------------------------------------------------
  // Where the scanner stops
  // ---------------------------------------------------------------------------

  function SignEnd(s: string): nat
  {
    if s != "" && s[0] == '-' then 1 else 0
  }

  function IntEnd(s: string, a: nat): (b: nat)
    requires a <= |s|
    ensures a <= b <= |s|
  {
    if a < |s| && s[a] == '0' then a + 1 else DigitsEnd(s, a)
  }

  function FracEnd(s: string, b: nat): (c: nat)
    requires b <= |s|
    ensures b <= c <= |s|
  {
    if b < |s| && s[b] == '.' then DigitsEnd(s, b + 1) else b
  }

  /** Where the digits of an exponent that starts at `c` begin. */
  function ExpDigits(s: string, c: nat): (d: nat)
    requires c < |s|
    ensures d <= |s|
  {
    if c + 1 < |s| && (s[c + 1] == '+' || s[c + 1] == '-') then c + 2 else c + 1
  }

  predicate AcceptsInt(s: string, a: nat)
  {
    a < |s| && Digit(s[a])
  }

  predicate AcceptsFrac(s: string, b: nat)
  {
    b < |s| && s[b] == '.' ==> b + 1 < |s| && Digit(s[b + 1])
  }

  predicate AcceptsExp(s: string, c: nat)
    requires c <= |s|
  {
    c == |s| ||
    ((s[c] == 'e' || s[c] == 'E') &&
     var d := ExpDigits(s, c); d < |s| && Digit(s[d]) && DigitsEnd(s, d) == |s|)
  }

  predicate Accepts(s: string)
  {
    var a := SignEnd(s);
    AcceptsInt(s, a) &&
    var b := IntEnd(s, a);
    AcceptsFrac(s, b) && AcceptsExp(s, FracEnd(s, b))
  }

  method IsJSONNumberLiteral(text: string) returns (ok: bool)
    ensures ok <==> IsNumber(text)
  {
    hide IsNumber, DigitsEnd;
    AcceptsExactlyNumbers(text);
    if text == "" {
      return false;
    }
    var i := 0;
    if text[i] == '-' {
      i := i + 1;
      if i == |text| {
        return false;
      }
    }
    ghost var a := i;
    assert a == SignEnd(text) && a < |text|;
    if text[i] == '0' {
      i := i + 1;
    } else {
      if text[i] < '1' || text[i] > '9' {
        assert !AcceptsInt(text, a);
        return false;
      }
      i := SkipDigits(text, i);
    }
    ghost var b := i;
    assert AcceptsInt(text, a) && b == IntEnd(text, a);
    if i < |text| && text[i] == '.' {
      i := i + 1;
      if i == |text| || text[i] < '0' || text[i] > '9' {
        assert !AcceptsFrac(text, b);
        return false;
      }
      i := SkipDigits(text, i);
    }
    ghost var c := i;
    assert AcceptsFrac(text, b) && c == FracEnd(text, b);
    if i < |text| && (text[i] == 'e' || text[i] == 'E') {
      i := i + 1;
      if i < |text| && (text[i] == '+' || text[i] == '-') {
        i := i + 1;
      }
      assert i == ExpDigits(text, c);
      if i == |text| || text[i] < '0' || text[i] > '9' {
        assert !AcceptsExp(text, c);
        return false;
      }
      i := SkipDigits(text, i);
    }
    assert i == |text| <==> AcceptsExp(text, c);
    return i == |text|;
  }

  // ---------------------------------------------------------------------------
  // A number splits in one way only, and the scanner finds it
  // ---------------------------------------------------------------------------

  lemma {:induction false} DigitsEndIs(s: string, from: nat, end: nat)
    requires from <= end <= |s|
    requires forall i :: from <= i < end ==> Digit(s[i])
    requires end < |s| ==> !Digit(s[end])
    ensures DigitsEnd(s, from) == end
    decreases end - from
  {
    if from < end {
      DigitsEndIs(s, from + 1, end);
    }
  }

  lemma {:induction false} OnlyDigitsBeforeEnd(s: string, from: nat)
    requires from <= |s|
    ensures forall i :: from <= i < DigitsEnd(s, from) ==> Digit(s[i])
    decreases |s| - from
  {
    if from < |s| && Digit(s[from]) {
      OnlyDigitsBeforeEnd(s, from + 1);
    }
  }

  lemma IntIsScanned(s: string, a: nat, b: nat)
    requires a <= b <= |s| && (b < |s| ==> !Digit(s[b]))
    requires IsInt(s[a..b])
    ensures AcceptsInt(s, a) && IntEnd(s, a) == b
  {
    var part := s[a..b];
    assert part[0] == s[a];
    if part != "0" {
      assert forall i :: a <= i < b ==> s[i] == part[i - a];
      DigitsEndIs(s, a, b);
    }
  }

  lemma FracIsScanned(s: string, b: nat, c: nat)
    requires b <= c <= |s| && (c < |s| ==> s[c] == 'e' || s[c] == 'E')
    requires b == c || IsFrac(s[b..c])
    ensures AcceptsFrac(s, b) && FracEnd(s, b) == c
  {
    if b < c {
      var part := s[b..c][1..];
      assert s[b..c][0] == s[b];
      assert forall i :: b < i < c ==> s[i] == part[i - b - 1];
      DigitsEndIs(s, b + 1, c);
    }
  }

  lemma ExpIsScanned(s: string, c: nat)
    requires c <= |s|
    requires c == |s| || IsExp(s[c..])
    ensures AcceptsExp(s, c)
  {
    if c < |s| {
      var part := s[c..];
      assert part[0] == s[c];
      var d := ExpDigits(s, c);
      if |part| > 1 { assert part[1] == s[c + 1]; }
      var digits := part[d - c..];
      assert Digits(digits) by {
        if d == c + 2 { assert !Digits(part[1..]) by { assert !Digit(part[1..][0]); } }
      }
      assert forall i :: d <= i < |s| ==> s[i] == digits[i - d];
      assert digits[0] == s[d];
      DigitsEndIs(s, d, |s|);
    }
  }

  /** Wherever a number splits, the scanner accepts and its parts end at the same places. */
  lemma SplitIsAccepted(s: string, a: int, b: int, c: int)
    requires Splits(s, a, b, c)
    ensures Accepts(s)
  {
    if a > 0 { assert s[..a][0] == s[0]; }
    assert s[a..b][0] == s[a];
    assert a == SignEnd(s);
    if c < |s| { assert s[c..][0] == s[c]; }
    if b < c { assert s[b..c][0] == s[b]; }
    IntIsScanned(s, a, b);
    FracIsScanned(s, b, c);
    ExpIsScanned(s, c);
  }

  lemma AcceptedSplits(s: string)
    requires Accepts(s)
    ensures var a := SignEnd(s); var b := IntEnd(s, a); Splits(s, a, b, FracEnd(s, b))
  {
    var a := SignEnd(s);
    var b := IntEnd(s, a);
    var c := FracEnd(s, b);
    if s[a] == '0' {
      assert s[a..b] == "0";
    } else {
      OnlyDigitsBeforeEnd(s, a);
      assert s[a..b][0] == s[a];
      assert Digits(s[a..b]);
    }
    if b < c {
      OnlyDigitsBeforeEnd(s, b + 1);
      assert s[b..c][0] == '.';
      assert Digits(s[b..c][1..]);
    }
    if c < |s| {
      var d := ExpDigits(s, c);
      OnlyDigitsBeforeEnd(s, d);
      assert s[c..][0] == s[c] && s[c..][d - c..] == s[d..];
      assert Digits(s[d..]);
    }
  }

  lemma AcceptsExactlyNumbers(s: string)
    ensures Accepts(s) <==> IsNumber(s)
  {
    if Accepts(s) {
      AcceptedSplits(s);
    }
    if IsNumber(s) {
      var a, b, c :| Splits(s, a, b, c);
      SplitIsAccepted(s, a, b, c);
    }
  }
}
