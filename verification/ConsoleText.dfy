/** The string operations the console's parser leans on, and the laws of decimal text. */
module ConsoleText {
  import opened Basics

  /** The largest count a 64-bit build can parse. */
  const USIZE_MAX: nat := 0xFFFF_FFFF_FFFF_FFFF

  // ── Words ────────────────────────────────────────────────────────────────

  /** ASCII lower case; every other character is kept. */
  function Lower(s: string): (r: string)
    ensures |r| == |s|
    ensures forall i :: 0 <= i < |s| ==> r[i] == LowerChar(s[i])
  {
    if s == "" then "" else [LowerChar(s[0])] + Lower(s[1..])
  }

  predicate IsLower(s: string) {
    forall i :: 0 <= i < |s| ==> !('A' <= s[i] <= 'Z')
  }

  lemma LowerKeeps(s: string)
    requires IsLower(s)
    ensures Lower(s) == s
  {
  }

  /** The word without its leading dashes. */
  function TrimDashes(s: string): (r: string)
    ensures s != "" && s[0] != '-' ==> r == s
  {
    if s != "" && s[0] == '-' then TrimDashes(s[1..]) else s
  }

  function Normalised(word: string): string { Lower(TrimDashes(word)) }

  /** What follows `--`, else what follows `-`. */
  function FlagBody(arg: string): (r: Option<string>) {
    if |arg| >= 2 && arg[..2] == "--" then Some(arg[2..])
    else if |arg| >= 1 && arg[0] == '-' then Some(arg[1..])
    else None
  }

  /** Splits at the first occurrence of `c`. */
  function SplitOnce(s: string, c: char): (r: Option<(string, string)>)
    ensures r.Some? ==> s == r.value.0 + [c] + r.value.1 && c !in r.value.0
    ensures r.None? <==> c !in s
  {
    if s == "" then None
    else if s[0] == c then
      assert s == "" + [c] + s[1..];
      Some(("", s[1..]))
    else
      match SplitOnce(s[1..], c)
      case None => None
      case Some((a, b)) =>
        assert s == [s[0]] + a + [c] + b;
        Some(([s[0]] + a, b))
  }

  lemma {:induction false} SplitOnceAt(a: string, c: char, b: string)
    requires c !in a
    ensures SplitOnce(a + [c] + b, c) == Some((a, b))
  {
    if a == "" {
      assert a + [c] + b == [c] + b;
    } else {
      SplitOnceAt(a[1..], c, b);
      assert (a + [c] + b)[1..] == a[1..] + [c] + b;
      assert [a[0]] + a[1..] == a;
    }
  }

  // ── Decimal text ─────────────────────────────────────────────────────────

  predicate IsDigit(c: char) { '0' <= c <= '9' }

  function DigitValue(c: char): (d: nat)
    requires IsDigit(c)
    ensures d < 10
  {
    (c - '0') as int
  }

  function DigitChar(d: nat): (c: char)
    requires d < 10
    ensures IsDigit(c) && DigitValue(c) == d
  {
    '0' + d as char
  }

  function Decimal(n: nat): (s: string)
    ensures s != "" && forall i :: 0 <= i < |s| ==> IsDigit(s[i])
  {
    if n < 10 then [DigitChar(n)] else Decimal(n / 10) + [DigitChar(n % 10)]
  }

  /** Digits after `acc`; a value that does not fit a `usize` is refused as it is met. */
  function ParseDigits(s: string, acc: nat): Option<nat>
    decreases |s|
  {
    if s == "" then Some(acc)
    else if !IsDigit(s[0]) then None
    else
      var v := acc * 10 + DigitValue(s[0]);
      if v > USIZE_MAX then None else ParseDigits(s[1..], v)
  }

  /** An unsigned count: one leading `+` is allowed, an empty digit string is not. */
  function ParseUsize(s: string): Option<nat> {
    var digits := if s != "" && s[0] == '+' then s[1..] else s;
    if digits == "" then None else ParseDigits(digits, 0)
  }

  lemma {:induction false} ParseDigitsAppend(a: string, b: string, acc: nat)
    ensures ParseDigits(a + b, acc) ==
            match ParseDigits(a, acc)
            case None => None
            case Some(v) => ParseDigits(b, v)
    decreases |a|
  {
    if a == "" {
      assert a + b == b;
    } else {
      assert (a + b)[1..] == a[1..] + b;
      if IsDigit(a[0]) {
        ParseDigitsAppend(a[1..], b, acc * 10 + DigitValue(a[0]));
      }
    }
  }

  lemma {:induction false} ParseDigitsOfDecimal(n: nat)
    ensures ParseDigits(Decimal(n), 0) == if n <= USIZE_MAX then Some(n) else None
  {
    if n < 10 {
      assert [DigitChar(n)][1..] == "";
    } else {
      ParseDigitsOfDecimal(n / 10);
      var last := [DigitChar(n % 10)];
      ParseDigitsAppend(Decimal(n / 10), last, 0);
      assert last[1..] == "";
      assert (n / 10) * 10 + n % 10 == n;
    }
  }

  /** A printed count reads back as itself, exactly while it fits. */
  lemma ParseUsizeOfDecimal(n: nat)
    ensures ParseUsize(Decimal(n)) == if n <= USIZE_MAX then Some(n) else None
  {
    ParseDigitsOfDecimal(n);
    assert IsDigit(Decimal(n)[0]);
  }
}
