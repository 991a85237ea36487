// The route a relation card navigates to: "/watch/" followed by the
// relation's id as JavaScript prints an integer below 10^21 in magnitude in
// a template literal (from 10^21 on JavaScript switches to exponent form,
// which this model does not produce).

module WatchRoute {

  datatype Option<T> = None | Some(value: T)

  const WatchPrefix: string := "/watch/"

  /** Every character is a decimal digit. */
  predicate AllDigits(s: string) {
    forall k :: 0 <= k < |s| ==> '0' <= s[k] <= '9'
  }

  /** A non-empty numeral. */
  predicate IsDigits(s: string) {
    |s| > 0 && AllDigits(s)
  }

  function DigitChar(d: nat): (c: char)
    requires d < 10
    ensures '0' <= c <= '9' && c as int - '0' as int == d
  {
    ('0' as int + d) as char
  }

  /** The shortest decimal numeral of `n`, as `Number.prototype.toString`
      gives it for a non-negative integer below 10^21. */
  function NatToDecimal(n: nat): (s: string)
    ensures IsDigits(s)
    ensures s[0] == '0' ==> n == 0
  {
    if n < 10 then [DigitChar(n)] else NatToDecimal(n / 10) + [DigitChar(n % 10)]
  }

  /** The value a numeral denotes, read most significant digit first. */
  function DecimalValue(s: string): nat
    requires AllDigits(s)
  {
    if s == [] then 0
    else DecimalValue(s[..|s| - 1]) * 10 + (s[|s| - 1] as int - '0' as int)
  }

  lemma {:induction false} DecimalRoundTrip(n: nat)
    ensures DecimalValue(NatToDecimal(n)) == n
  {
    if n >= 10 {
      var s := NatToDecimal(n);
      assert s[..|s| - 1] == NatToDecimal(n / 10);
      DecimalRoundTrip(n / 10);
    }
  }

  /** An integer as a template literal prints it when its magnitude is
      below 10^21: a minus sign for negative values, then the digits of its
      magnitude. */
  function IntToString(i: int): string {
    if i < 0 then "-" + NatToDecimal(-i) else NatToDecimal(i)
  }

  /** Reads back an integer printed by `IntToString`. */
  function ParseInt(t: string): Option<int> {
    if |t| > 0 && t[0] == '-' then
      if IsDigits(t[1..]) then Some(0 - DecimalValue(t[1..]) as int) else None
    else if IsDigits(t) then Some(DecimalValue(t))
    else None
  }

  /** The path `handleCardClick` gives to `navigate` for relation `id`. */
  function WatchPath(id: int): (p: string)
    ensures |p| > |WatchPrefix| && p[..|WatchPrefix|] == WatchPrefix
  {
    WatchPrefix + IntToString(id)
  }

  /** The id a "/watch/<id>" path names, if it is one. */
  function ParseWatchPath(p: string): Option<int> {
    if |p| >= |WatchPrefix| && p[..|WatchPrefix|] == WatchPrefix then ParseInt(p[|WatchPrefix|..])
    else None
  }

  /** The route names the relation it was built from. */
  lemma WatchPathRoundTrip(id: int)
    ensures ParseWatchPath(WatchPath(id)) == Some(id)
  {
    var t := IntToString(id);
    assert WatchPath(id)[|WatchPrefix|..] == t;
    if id < 0 {
      assert t[1..] == NatToDecimal(-id);
      DecimalRoundTrip(-id);
    } else {
      DecimalRoundTrip(id);
    }
  }

  /** Different relations lead to different routes. */
  lemma WatchPathInjective(a: int, b: int)
    ensures WatchPath(a) == WatchPath(b) <==> a == b
  {
    WatchPathRoundTrip(a);
    WatchPathRoundTrip(b);
  }
}
