/** Session ids: the object's address in hexadecimal, padded with zeros to eight digits (src/session.cpp:23-26). */
module SessionIds {

  const DIGITS: string := "0123456789abcdef"
  const WIDTH: nat := 8

  function Hex(n: nat): (s: string)
    ensures |s| > 0
  {
    if n < 16 then [DIGITS[n]] else Hex(n / 16) + [DIGITS[n % 16]]
  }

  function Zeros(k: nat): (s: string)
    ensures |s| == k
  {
    if k == 0 then "" else "0" + Zeros(k - 1)
  }

  /** `setw` pads but never truncates, so longer addresses keep all their digits. */
  function SessionId(address: nat): (id: string)
    ensures |id| >= WIDTH
  {
    var h := Hex(address);
    if |h| < WIDTH then Zeros(WIDTH - |h|) + h else h
  }

  /** The value of a digit; anything else counts as zero. */
  function DigitValue(c: char): nat {
    if '0' <= c <= '9' then (c - '0') as nat
    else if 'a' <= c <= 'f' then (c - 'a') as nat + 10
    else 0
  }

  /** The number a string of digits denotes. */
  function Value(s: string): nat {
    if s == "" then 0 else 16 * Value(s[..|s| - 1]) + DigitValue(s[|s| - 1])
  }

  lemma DigitRoundTrip(d: nat)
    requires d < 16
    ensures DigitValue(DIGITS[d]) == d
  {
  }

  lemma {:induction false} ValueOfHex(n: nat)
    ensures Value(Hex(n)) == n
  {
    if n < 16 {
      assert Hex(n)[..0] == "";
      DigitRoundTrip(n);
    } else {
      ValueOfHex(n / 16);
      var h := Hex(n / 16);
      assert Hex(n) == h + [DIGITS[n % 16]];
      assert (h + [DIGITS[n % 16]])[..|h|] == h;
      DigitRoundTrip(n % 16);
    }
  }

  lemma {:induction false} ValueOfPadded(k: nat, s: string)
    ensures Value(Zeros(k) + s) == Value(s)
    decreases |s|, k
  {
    var p := Zeros(k) + s;
    if s != "" {
      ValueOfPadded(k, s[..|s| - 1]);
      assert p[..|p| - 1] == Zeros(k) + s[..|s| - 1];
    } else if k > 0 {
      assert p == Zeros(k);
      ZerosAgain(k);
      ValueOfPadded(k - 1, "");
      assert p[..|p| - 1] == Zeros(k - 1) + "";
    }
  }

  lemma {:induction false} ZerosAgain(k: nat)
    requires k > 0
    ensures Zeros(k) == Zeros(k - 1) + "0"
  {
    if k > 1 {
      ZerosAgain(k - 1);
    }
  }

  /** Different addresses have different ids: the id determines the address, however long it is. */
  lemma IdsAreInjective(a: nat, b: nat)
    ensures Value(SessionId(a)) == a
    ensures SessionId(a) == SessionId(b) ==> a == b
  {
    ValueOfId(a);
    ValueOfId(b);
  }

  lemma ValueOfId(a: nat)
    ensures Value(SessionId(a)) == a
  {
    var h := Hex(a);
    assert Value(h) == a by {
      ValueOfHex(a);
    }
    if |h| < WIDTH {
      ValueOfPadded(WIDTH - |h|, h);
    }
  }

  // ----- There is no other such string -----

  predicate IsDigit(c: char) {
    '0' <= c <= '9' || 'a' <= c <= 'f'
  }

  predicate AllDigits(s: string) {
    forall i :: 0 <= i < |s| ==> IsDigit(s[i])
  }

  /** Lower-case hexadecimal digits of the address: eight, or as many as it needs. */
  ghost predicate Denotes(id: string, address: nat) {
    && AllDigits(id) && Value(id) == address
    && |id| >= WIDTH && (|id| > WIDTH ==> id[0] != '0')
  }

  function Power(n: nat): nat {
    if n == 0 then 1 else 16 * Power(n - 1)
  }

  lemma {:induction false} ValueBound(s: string)
    requires AllDigits(s)
    ensures Value(s) < Power(|s|)
    ensures s != "" && s[0] != '0' ==> Value(s) >= Power(|s| - 1)
    decreases |s|
  {
    if s != "" {
      ValueBound(s[..|s| - 1]);
      if |s| == 1 {
        assert Value(s[..0]) == 0;
      }
    }
  }

  lemma {:induction false} PowerGrows(m: nat, n: nat)
    requires m <= n
    ensures Power(m) <= Power(n)
    decreases n
  {
    if m < n {
      PowerGrows(m, n - 1);
    }
  }

  lemma DigitsDiffer(c: char, d: char)
    requires IsDigit(c) && IsDigit(d) && DigitValue(c) == DigitValue(d)
    ensures c == d
  {
  }

  lemma {:induction false} SameLengthSameDigits(s: string, t: string)
    requires AllDigits(s) && AllDigits(t) && |s| == |t| && Value(s) == Value(t)
    ensures s == t
    decreases |s|
  {
    if s != "" {
      var n := |s| - 1;
      SameLengthSameDigits(s[..n], t[..n]);
      DigitsDiffer(s[n], t[n]);
      assert s == s[..n] + [s[n]] && t == t[..n] + [t[n]];
    }
  }

  lemma LongerIsLarger(s: string, t: string)
    requires AllDigits(s) && AllDigits(t) && |s| < |t| && t[0] != '0'
    ensures Value(s) < Value(t)
  {
    ValueBound(s);
    ValueBound(t);
    PowerGrows(|s|, |t| - 1);
  }

  lemma {:induction false} HexDigits(n: nat)
    ensures AllDigits(Hex(n)) && (n > 0 ==> Hex(n)[0] != '0')
  {
    if n >= 16 {
      HexDigits(n / 16);
    }
  }

  lemma {:induction false} ZerosDigits(k: nat)
    ensures AllDigits(Zeros(k))
  {
    if k > 0 {
      ZerosDigits(k - 1);
    }
  }

  /** The id is the one string of that form: no digit more, no digit less, no other padding. */
  lemma IdExact(id: string, address: nat)
    ensures Denotes(id, address) <==> id == SessionId(address)
  {
    var own := SessionId(address);
    ValueOfId(address);
    HexDigits(address);
    if |Hex(address)| < WIDTH {
      ZerosDigits(WIDTH - |Hex(address)|);
    }
    assert Denotes(own, address);
    if Denotes(id, address) {
      if |id| < |own| {
        LongerIsLarger(id, own);
      } else if |own| < |id| {
        LongerIsLarger(own, id);
      } else {
        SameLengthSameDigits(id, own);
      }
    }
  }
}
