/** PostgreSQL's text-to-integer cast (`::integer`), as the MAX query over
    product ids applies it to each id's suffix. */
module PgCast {
  import opened Wrappers
  import opened JsText

  const Int4Min := -0x8000_0000
  const Int4Max := 0x7FFF_FFFF

  /** isspace in the C locale, which PostgreSQL's integer input skips */
  predicate IsPgSpace(c: char) {
    c == ' ' || c == '\t' || c == '\n' || c == '\r' || c == '\U{000B}' || c == '\U{000C}'
  }

  predicate AllPgSpace(s: string) {
    forall i :: 0 <= i < |s| ==> IsPgSpace(s[i])
  }

  /** The digits of a cast with the sign removed: a run of digits followed
      only by spaces */
  function CastMagnitude(rest: string): Option<nat> {
    var digits := DigitPrefix(rest);
    if |digits| == 0 || !AllPgSpace(rest[|digits|..]) then None else Some(Value(digits))
  }

  /** `s::integer`: optional spaces, an optional sign, decimal digits,
      optional spaces, within the 32-bit range. None is the cast error,
      which aborts the whole statement. */
  function PgInt4(s: string): (r: Option<int>)
    ensures r.Some? ==> Int4Min <= r.value <= Int4Max
  {
    var t := DropLeading(s, IsPgSpace);
    var negative := |t| > 0 && t[0] == '-';
    var rest := if |t| > 0 && (t[0] == '-' || t[0] == '+') then t[1..] else t;
    match CastMagnitude(rest)
    case None => None
    case Some(m) =>
      var v := if negative then -(m as int) else m;
      if Int4Min <= v <= Int4Max then Some(v) else None
  }

  /** A plain digit string is read whole. */
  lemma CastMagnitudeOfDigits(s: string)
    requires IsDigits(s)
    ensures CastMagnitude(s) == Some(Value(s))
  {
    DigitPrefixOfDigits(s);
    assert s[|s|..] == "";
  }

  /** A digit string within range casts to its value (leading zeros allowed). */
  lemma PgInt4OfDigits(s: string)
    requires IsDigits(s) && Value(s) <= Int4Max
    ensures PgInt4(s) == Some(Value(s))
  {
    DropLeadingNone(s, IsPgSpace);
    CastMagnitudeOfDigits(s);
  }

  /** A digit string whose value is out of range does not cast. */
  lemma NoCastAboveRange(s: string)
    requires IsDigits(s) && Value(s) > Int4Max
    ensures PgInt4(s) == None
  {
    DropLeadingNone(s, IsPgSpace);
    CastMagnitudeOfDigits(s);
  }

  /** A minus sign in front of digits is not skipped as space. */
  lemma MinusKept(d: string)
    ensures DropLeading("-" + d, IsPgSpace) == "-" + d
  {
    var s := "-" + d;
    assert s[0] == '-';
    DropLeadingNone(s, IsPgSpace);
  }

  /** A minus sign and a magnitude cast to the negated magnitude, if in range. */
  lemma NegativeCastOf(d: string, m: nat)
    requires CastMagnitude(d) == Some(m)
    requires DropLeading("-" + d, IsPgSpace) == "-" + d
    ensures PgInt4("-" + d) == None || PgInt4("-" + d) == Some(-(m as int))
  {
    var s := "-" + d;
    assert s[1..] == d;
  }

  /** "-" followed by at least two digits is its own padding and casts to
      the negated value, if in range. */
  lemma NegativeCast(d: string, m: nat)
    requires IsDigits(d) && |d| >= 2 && Value(d) == m
    ensures PgInt4("-" + d) == None || PgInt4("-" + d) == Some(-(m as int))
  {
    CastMagnitudeOfDigits(d);
    MinusKept(d);
    NegativeCastOf(d, m);
  }

  /** "-" and one digit is padded to "0-" and the digit, which is not an
      integer. */
  lemma PaddedNegativeCast(d: string)
    requires IsDigits(d) && |d| == 1
    ensures PadStart("-" + d, 3, '0') == "0-" + d
    ensures PgInt4("0-" + d) == None
  {
    var s := "0-" + d;
    assert Repeat('0', 1) + ("-" + d) == s;
    DropLeadingNone(s, IsPgSpace);
    assert s[1] == '-';
    var digits := DigitPrefix(s);
    assert |digits| <= 1;
    assert s[|digits|..][1 - |digits|] == '-';
  }
}
