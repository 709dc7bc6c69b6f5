/** Decimal `u64` text: Rust's `u64::from_str` and the `{}` formatting of integers. */
module Numbers {
  import opened Wrappers
  import opened Strings

  const U64_MAX: nat := 0xFFFF_FFFF_FFFF_FFFF

  predicate IsDigit(c: char)
  {
    '0' <= c <= '9'
  }

  predicate AllDigits(s: string)
  {
    forall i :: 0 <= i < |s| ==> IsDigit(s[i])
  }

  /** The value of a string of decimal digits, most significant first. */
  function DigitsValue(s: string): nat
    requires AllDigits(s)
  {
    if s == [] then 0
    else DigitsValue(s[..|s| - 1]) * 10 + (s[|s| - 1] as int - '0' as int)
  }

  /** The text after one leading `+`, if there is one. */
  function Unsigned(s: string): (t: string)
    ensures |s| > 0 && s[0] == '+' ==> s == "+" + t
    ensures (|s| == 0 || s[0] != '+') ==> t == s
  {
    if s != [] && s[0] == '+' then s[1..] else s
  }

  /**
   * `u64::from_str`: an optional `+`, then at least one decimal digit and
   * nothing else, with a value that fits in 64 bits.
   */
  function ParseU64(s: string): (r: Option<nat>)
    ensures r.Some? ==> r.value <= U64_MAX
    ensures r.Some? ==> s != [] && s != "+" && (s[0] == '+' || IsDigit(s[0]))
    ensures var t := Unsigned(s);
            && (r.Some? <==> t != [] && AllDigits(t) && DigitsValue(t) <= U64_MAX)
            && (r.Some? ==> r.value == DigitsValue(t))
  {
    var digits := Unsigned(s);
    if digits != [] && AllDigits(digits) && DigitsValue(digits) <= U64_MAX then
      Some(DigitsValue(digits))
    else None
  }

  function DigitChar(d: nat): (c: char)
    requires d < 10
    ensures IsDigit(c)
  {
    ('0' as int + d) as char
  }

  /** `n.to_string()`: the shortest decimal rendering of `n`. */
  function DecimalString(n: nat): (s: string)
    ensures s != [] && AllDigits(s)
    ensures |s| > 1 ==> s[0] != '0'
  {
    if n < 10 then [DigitChar(n)]
    else DecimalString(n / 10) + [DigitChar(n % 10)]
  }

  /** Reading back a rendered number gives the number. */
  lemma {:induction false} DigitsValueDecimal(n: nat)
    ensures DigitsValue(DecimalString(n)) == n
    decreases n
  {
    if n >= 10 {
      var s := DecimalString(n);
      assert s[..|s| - 1] == DecimalString(n / 10);
      DigitsValueDecimal(n / 10);
    }
  }

  /** `n.to_string().parse::<u64>()` gives back `n` for every 64-bit `n`. */
  lemma ParseDecimal(n: nat)
    requires n <= U64_MAX
    ensures ParseU64(DecimalString(n)) == Some(n)
  {
    DigitsValueDecimal(n);
  }

  /** `n` zero digits. */
  function Zeros(n: nat): (z: string)
    ensures |z| == n && AllDigits(z)
  {
    if n == 0 then [] else Zeros(n - 1) + ['0']
  }

  /** A string of zeros is worth 0. */
  lemma {:induction false} ZerosWorthNothing(n: nat)
    ensures DigitsValue(Zeros(n)) == 0
  {
    if n > 0 {
      assert Zeros(n)[..n - 1] == Zeros(n - 1);
      ZerosWorthNothing(n - 1);
    }
  }

  /** Leading zeros add nothing to the value of a digit string. */
  lemma {:induction false} ZerosValue(n: nat, s: string)
    requires AllDigits(s)
    ensures AllDigits(Zeros(n) + s) && DigitsValue(Zeros(n) + s) == DigitsValue(s)
  {
    var z := Zeros(n);
    var zs := z + s;
    assert AllDigits(zs) by {
      forall i | 0 <= i < |zs|
        ensures IsDigit(zs[i])
      {
        if i < |z| {
          assert zs[i] == z[i];
        } else {
          assert zs[i] == s[i - |z|];
        }
      }
    }
    if s == [] {
      assert zs == z;
      ZerosWorthNothing(n);
    } else {
      var init := s[..|s| - 1];
      assert zs[..|zs| - 1] == z + init;
      assert zs[|zs| - 1] == s[|s| - 1];
      ZerosValue(n, init);
    }
  }

  /** A '+' and any number of leading zeros in front of a 64-bit decimal still read as that number. */
  lemma ParsePadded(plus: bool, zeros: nat, n: nat)
    requires n <= U64_MAX
    ensures ParseU64((if plus then "+" else "") + Zeros(zeros) + DecimalString(n)) == Some(n)
  {
    var d := DecimalString(n);
    var t := Zeros(zeros) + d;
    var sign: string := if plus then "+" else "";
    var s := sign + Zeros(zeros) + d;
    assert s == sign + t;
    DigitsValueDecimal(n);
    ZerosValue(zeros, d);
    assert t != [] && t[|t| - 1] == d[|d| - 1];
    if plus {
      assert s[0] == '+' && s[1..] == t;
    } else {
      assert s == t;
      assert t[0] != '+' by {
        assert IsDigit(t[0]);
      }
    }
    assert Unsigned(s) == t;
  }

  /** The first value past 64 bits does not parse. */
  lemma ParseOverflow()
    ensures ParseU64(DecimalString(U64_MAX + 1)) == None
  {
    DigitsValueDecimal(U64_MAX + 1);
  }
}
