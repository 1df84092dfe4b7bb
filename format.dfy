/** Python's `str()` of the JSON scalars that go into the producer's message
    key, and a parser that reads a key back, so that the key's construction has
    an inverse to be checked against.
 */
module Format {
  import opened Telemetry

  predicate IsDigit(c: char)
  {
    '0' <= c <= '9'
  }

  predicate AllDigits(s: string)
  {
    forall i :: 0 <= i < |s| ==> IsDigit(s[i])
  }

  function DigitChar(d: nat): (c: char)
    requires d < 10
    ensures IsDigit(c)
  {
    ('0' as int + d) as char
  }

  function DigitValue(c: char): (d: nat)
    requires IsDigit(c)
    ensures d < 10 && DigitChar(d) == c
  {
    (c as int - '0' as int) as nat
  }

  /** Decimal digits of `n`, most significant first, no leading zeros. */
  function NatText(n: nat): (s: string)
    ensures |s| > 0 && AllDigits(s)
    decreases n
  {
    if n < 10 then [DigitChar(n)] else NatText(n / 10) + [DigitChar(n % 10)]
  }

  /** `str(i)` of a Python int. */
  function IntText(i: int): (s: string)
    ensures |s| > 0 && (AllDigits(s) <==> i >= 0)
  {
    if i < 0 then
      var s := "-" + NatText(-i);
      assert !IsDigit(s[0]);
      s
    else NatText(i)
  }

  /** The number written by a string of decimal digits. */
  function ParseNat(s: string): nat
    requires AllDigits(s)
  {
    if s == [] then 0 else ParseNat(s[..|s| - 1]) * 10 + DigitValue(s[|s| - 1])
  }

  lemma {:induction false} ParseNatText(n: nat)
    ensures ParseNat(NatText(n)) == n
    decreases n
  {
    if n >= 10 {
      var q, d := n / 10, n % 10;
      var s := NatText(n);
      assert s == NatText(q) + [DigitChar(d)];
      assert s[..|s| - 1] == NatText(q);
      assert DigitValue(s[|s| - 1]) == d;
      ParseNatText(q);
      assert ParseNat(s) == q * 10 + d;
    }
  }

  /** Up to `count` decimal digits of a fraction in [0, 1), stopping early
      when the expansion ends. */
  function FractionDigits(f: real, count: nat): (s: string)
    requires 0.0 <= f < 1.0
    ensures AllDigits(s)
    decreases count
  {
    if f == 0.0 || count == 0 then ""
    else
      var d := (f * 10.0).Floor;
      [DigitChar(d as nat)] + FractionDigits(f * 10.0 - d as real, count - 1)
  }

  /** `str(r)` of a Python float whose value is a short decimal: the integer
      part, a point, and the fraction digits ("0" for an integral value). */
  function RealText(r: real): string
  {
    var magnitude := if r < 0.0 then -r else r;
    var whole := magnitude.Floor;
    var fraction := magnitude - whole as real;
    (if r < 0.0 then "-" else "") + NatText(whole as nat) + "."
      + (if fraction == 0.0 then "0" else FractionDigits(fraction, 17))
  }

  /** Python's `str()` of a JSON scalar, as an f-string inserts it. */
  function Display(v: Value): (r: string)
    // text is inserted as it is
    ensures v.Text? ==> r == v.s
    // an int is written as a nonempty numeral, all digits exactly when it is not negative
    ensures v.Int? ==> |r| > 0 && (AllDigits(r) <==> v.i >= 0)
  {
    match v
    case Null => "None"
    case Bool(b) => if b then "True" else "False"
    case Int(i) => IntText(i)
    case Real(r) => RealText(r)
    case Text(s) => s
  }

  /** The message key `f"{mission_id}-stage-{stage}"`. */
  function MakeKey(missionId: Value, stage: Value): (key: string)
    // the mission's text, then "-stage-", then the stage's text
    ensures |key| == |Display(missionId)| + 7 + |Display(stage)|
    ensures key[..|Display(missionId)|] == Display(missionId)
    ensures key[|Display(missionId)|..|Display(missionId)| + 7] == "-stage-"
    ensures key[|Display(missionId)| + 7..] == Display(stage)
  {
    Display(missionId) + "-stage-" + Display(stage)
  }

  /** The number of decimal digits at the end of `s`. */
  function DigitSuffixLength(s: string): (n: nat)
    ensures n <= |s|
    ensures forall i :: |s| - n <= i < |s| ==> IsDigit(s[i])
    ensures n < |s| ==> !IsDigit(s[|s| - n - 1])
  {
    if s == [] || !IsDigit(s[|s| - 1]) then 0
    else DigitSuffixLength(s[..|s| - 1]) + 1
  }

  predicate EndsWith(s: string, suffix: string)
  {
    |suffix| <= |s| && s[|s| - |suffix|..] == suffix
  }

  /** Reads a key whose stage is an integer back into the text before
      "-stage-" and the stage number. */
  function SplitKey(key: string): Option<(string, int)>
  {
    var n := DigitSuffixLength(key);
    var head := key[..|key| - n];
    var digits := key[|key| - n..];
    if n == 0 then None
    else if EndsWith(head, "-stage--") then Some((head[..|head| - 8], -(ParseNat(digits) as int)))
    else if EndsWith(head, "-stage-") then Some((head[..|head| - 7], ParseNat(digits) as int))
    else None
  }

  /** A run of digits after a non-digit is exactly the digit suffix. */
  lemma {:induction false} DigitSuffixAfter(prefix: string, digits: string)
    requires |prefix| > 0 && !IsDigit(prefix[|prefix| - 1]) && AllDigits(digits)
    ensures DigitSuffixLength(prefix + digits) == |digits|
    decreases |digits|
  {
    var s := prefix + digits;
    if digits == [] {
      assert s == prefix;
    } else {
      assert s[|s| - 1] == digits[|digits| - 1];
      assert s[..|s| - 1] == prefix + digits[..|digits| - 1];
      DigitSuffixAfter(prefix, digits[..|digits| - 1]);
    }
  }

  /** Splitting `head + digits` at its digit suffix gives back both parts. */
  lemma SplitAtDigits(head: string, digits: string)
    requires |head| > 0 && !IsDigit(head[|head| - 1]) && |digits| > 0 && AllDigits(digits)
    ensures var key := head + digits;
            var n := DigitSuffixLength(key);
            n == |digits| && key[..|key| - n] == head && key[|key| - n..] == digits
  {
    DigitSuffixAfter(head, digits);
    var key := head + digits;
    assert key[..|key| - |digits|] == head;
    assert key[|key| - |digits|..] == digits;
  }

  lemma SplitNonnegativeStage(m: string, stage: nat)
    ensures SplitKey(m + "-stage-" + NatText(stage)) == Some((m, stage))
  {
    var head := m + "-stage-";
    var digits := NatText(stage);
    assert m + "-stage-" + digits == head + digits;
    SplitAtDigits(head, digits);
    ParseNatText(stage);
    assert !EndsWith(head, "-stage--") by {
      assert head[|head| - 2] == 'e';
    }
    assert EndsWith(head, "-stage-");
    assert head[..|head| - 7] == m;
  }

  lemma SplitNegativeStage(m: string, stage: nat)
    ensures SplitKey(m + "-stage-" + ("-" + NatText(stage))) == Some((m, -(stage as int)))
  {
    var head := m + "-stage--";
    var digits := NatText(stage);
    assert m + "-stage-" + ("-" + digits) == head + digits;
    SplitAtDigits(head, digits);
    ParseNatText(stage);
    assert EndsWith(head, "-stage--");
    assert head[..|head| - 8] == m;
  }

  /** Integer stages of either sign are read back from the key. */
  lemma SplitIntStage(m: string, stage: int)
    ensures SplitKey(m + "-stage-" + IntText(stage)) == Some((m, stage))
  {
    if stage < 0 {
      SplitNegativeStage(m, -stage);
    } else {
      SplitNonnegativeStage(m, stage);
    }
  }

  /** The key names the mission and, for an integer stage, the stage: reading
      it back gives both. */
  lemma SplitMakeKey(missionId: Value, stage: int)
    ensures SplitKey(MakeKey(missionId, Int(stage))) == Some((Display(missionId), stage))
  {
    SplitIntStage(Display(missionId), stage);
  }
}
