/** How POST /api/productos names a new product: the largest numeric suffix
    among the existing `P…` ids, read with PostgreSQL's integer cast (no
    rows counting as 0), plus one, spelled "P" + String(n).padStart(3, "0");
    if that id is found already taken, the suffix plus two is used without a
    further check. */
module ProductIds {
  import opened Wrappers
  import opened JsText
  import opened PgCast

  // ---------------------------------------------------------------------
  // Ids

  /** `id LIKE 'P%'` */
  predicate IsPId(id: string) {
    |id| > 0 && id[0] == 'P'
  }

  /** `SUBSTRING(id, 2)::integer` */
  function Suffix(id: string): (r: Option<int>)
    ensures r.Some? ==> Int4Min <= r.value <= Int4Max
  {
    PgInt4(if |id| == 0 then "" else id[1..])
  }

  /** `P${String(n).padStart(3, "0")}` */
  function FormatId(n: int): (r: string)
    ensures |r| >= 4 && r[0] == 'P'
  {
    "P" + PadStart(IntToString(n), 3, '0')
  }

  /** A formatted id is "P" and digits: the decimal of n, never truncated,
      behind as many zeros as reach three digits. */
  lemma FormatIdShape(n: nat)
    ensures |FormatId(n)| == 1 + Max(3, |Decimal(n)|)
    ensures FormatId(n)[0] == 'P' && IsDigits(FormatId(n)[1..])
    ensures FormatId(n)[|FormatId(n)| - |Decimal(n)|..] == Decimal(n)
    ensures forall i :: 1 <= i < |FormatId(n)| - |Decimal(n)| ==> FormatId(n)[i] == '0'
  {
    var p := PadStart(Decimal(n), 3, '0');
    assert FormatId(n)[1..] == p;
    PaddedDecimalValue(n, 3);
    PadStartParts(Decimal(n), 3, '0');
    assert FormatId(n)[|FormatId(n)| - |Decimal(n)|..] == p[|p| - |Decimal(n)|..];
  }

  /** Reading the suffix of a formatted id back with the cast the MAX query
      uses gives the number it was formatted from. */
  lemma SuffixRoundTrip(n: int)
    requires 0 <= n <= Int4Max
    ensures Suffix(FormatId(n)) == Some(n)
  {
    var p := PadStart(Decimal(n), 3, '0');
    assert FormatId(n)[1..] == p;
    PaddedDecimalValue(n, 3);
    PgInt4OfDigits(p);
  }

  /** Different numbers give different ids. */
  lemma FormatIdInjective(m: nat, n: nat)
    ensures FormatId(m) == FormatId(n) ==> m == n
  {
    PaddedDecimalValue(m, 3);
    PaddedDecimalValue(n, 3);
    assert FormatId(m)[1..] == PadStart(Decimal(m), 3, '0');
    assert FormatId(n)[1..] == PadStart(Decimal(n), 3, '0');
  }

  /** Whatever integer is formatted, casting the suffix back either fails or
      yields that integer: a negative n gives "-k" (read back as n) or, when
      padded, "0-k" (a cast error). */
  lemma FormatIdSuffixCast(n: int)
    ensures Suffix(FormatId(n)) == None || Suffix(FormatId(n)) == Some(n)
  {
    SuffixOfFormatId(n);
    if n < 0 {
      NegativeIdCast(n);
    } else if n <= Int4Max {
      SuffixRoundTrip(n);
    } else {
      PaddedDecimalValue(n, 3);
      NoCastAboveRange(PadStart(Decimal(n), 3, '0'));
    }
  }

  lemma SuffixOfFormatId(n: int)
    ensures Suffix(FormatId(n)) == PgInt4(PadStart(IntToString(n), 3, '0'))
  {
    assert FormatId(n)[1..] == PadStart(IntToString(n), 3, '0');
  }

  /** The padded text of a negative number casts back to it or not at all. */
  lemma NegativeIdCast(n: int)
    requires n < 0
    ensures var p := PadStart(IntToString(n), 3, '0'); PgInt4(p) == None || PgInt4(p) == Some(n)
  {
    var m: nat := -n;
    DecimalDigits(m);
    NegativeTextCast(n, Decimal(m), m);
  }

  lemma NegativeTextCast(n: int, d: string, m: nat)
    requires n < 0 && m == -n && IntToString(n) == "-" + d
    requires IsDigits(d) && |d| >= 1 && Value(d) == m
    ensures var p := PadStart(IntToString(n), 3, '0'); PgInt4(p) == None || PgInt4(p) == Some(n)
  {
    PaddedNegative(d, m);
  }

  /** "-" and digits, padded to three characters, casts to minus their
      value or fails. */
  lemma PaddedNegative(d: string, m: nat)
    requires IsDigits(d) && |d| >= 1 && Value(d) == m
    ensures var p := PadStart("-" + d, 3, '0'); PgInt4(p) == None || PgInt4(p) == Some(-(m as int))
  {
    if |d| >= 2 {
      assert PadStart("-" + d, 3, '0') == "-" + d;
      NegativeCast(d, m);
    } else {
      PaddedNegativeCast(d);
    }
  }

  // ---------------------------------------------------------------------
  // The MAX query

  /** Outcome of `SELECT MAX(SUBSTRING(id, 2)::integer) FROM productos
      WHERE id LIKE 'P%'`: a cast error, NULL, or the maximum. */
  datatype MaxQuery = CastFailure | NoRows | MaxOf(m: int)

  /** MAX of cast(id) over the ids matching `LIKE 'P%'`, failing as soon
      as one cast fails */
  function MaxCast(ids: seq<string>, cast: string -> Option<int>): (r: MaxQuery)
    ensures r.CastFailure? <==> exists i :: 0 <= i < |ids| && IsPId(ids[i]) && cast(ids[i]).None?
    ensures r.NoRows? <==> forall i :: 0 <= i < |ids| ==> !IsPId(ids[i])
    ensures r.MaxOf? ==> forall i :: 0 <= i < |ids| && IsPId(ids[i]) ==>
      cast(ids[i]).Some? && cast(ids[i]).value <= r.m
    ensures r.MaxOf? ==> exists i :: 0 <= i < |ids| && IsPId(ids[i]) && cast(ids[i]) == Some(r.m)
  {
    if |ids| == 0 then NoRows
    else
      var init := MaxCast(ids[..|ids| - 1], cast);
      var last := ids[|ids| - 1];
      if !IsPId(last) then init
      else
        match cast(last)
        case None => CastFailure
        case Some(v) =>
          match init
          case CastFailure => CastFailure
          case NoRows => MaxOf(v)
          case MaxOf(m) => MaxOf(if m < v then v else m)
  }

  /** The MAX query over the ids of a snapshot of the table */
  function MaxSuffix(ids: seq<string>): (r: MaxQuery)
    ensures r.CastFailure? <==> exists i :: 0 <= i < |ids| && IsPId(ids[i]) && Suffix(ids[i]).None?
    ensures r.NoRows? <==> forall i :: 0 <= i < |ids| ==> !IsPId(ids[i])
  {
    MaxCast(ids, Suffix)
  }

  /** `maxIdResult.rows[0].max_id || 0` */
  function MaxOrZero(q: MaxQuery): int
    requires !q.CastFailure?
  {
    if q.NoRows? then 0 else q.m
  }

  /** Appending an id whose number lies above every existing suffix makes
      that number the new maximum. */
  lemma MaxSuffixAppend(ids: seq<string>, n: int)
    requires MaxSuffix(ids).NoRows? || (MaxSuffix(ids).MaxOf? && MaxSuffix(ids).m < n)
    requires 0 <= n <= Int4Max
    ensures MaxSuffix(ids + [FormatId(n)]) == MaxOf(n)
  {
    SuffixRoundTrip(n);
    MaxCastAppend(ids, FormatId(n), Suffix, n);
  }

  lemma MaxCastAppend(ids: seq<string>, x: string, cast: string -> Option<int>, n: int)
    requires IsPId(x) && cast(x) == Some(n)
    requires MaxCast(ids, cast).NoRows? || (MaxCast(ids, cast).MaxOf? && MaxCast(ids, cast).m < n)
    ensures MaxCast(ids + [x], cast) == MaxOf(n)
  {
    assert (ids + [x])[..|ids|] == ids;
  }

  // ---------------------------------------------------------------------
  // The allocator

  /** The chosen id, and whether the fallback branch chose it */
  datatype Allocation = Allocation(id: string, fallback: bool)

  /** The allocation of one POST: the MAX query reads maxSnapshot and the
      existence check reads checkSnapshot, which are the same rows unless
      another request inserted in between. None is a failed MAX query. */
  function Allocate(maxSnapshot: seq<string>, checkSnapshot: seq<string>): (r: Option<Allocation>)
    ensures r.None? <==> MaxSuffix(maxSnapshot).CastFailure?
    ensures r.Some? && !r.value.fallback ==> r.value.id !in checkSnapshot
    ensures r.Some? ==> (r.value.fallback <==> FormatId(MaxOrZero(MaxSuffix(maxSnapshot)) + 1) in checkSnapshot)
    ensures r.Some? ==>
      r.value.id == FormatId(MaxOrZero(MaxSuffix(maxSnapshot)) + if r.value.fallback then 2 else 1)
  {
    var q := MaxSuffix(maxSnapshot);
    if q.CastFailure? then None
    else
      var nextId := MaxOrZero(q) + 1;
      var id := FormatId(nextId);
      if id in checkSnapshot then Some(Allocation(FormatId(nextId + 1), true))
      else Some(Allocation(id, false))
  }

  /** The number the allocator formats first: the maximum, or 0, plus one */
  function NextNumber(ids: seq<string>): int
    requires !MaxSuffix(ids).CastFailure?
  {
    MaxOrZero(MaxSuffix(ids)) + 1
  }

  /** Over one snapshot the candidate is never taken: every P id of the
      snapshot casts to at most the maximum, while the candidate casts to
      the maximum plus one or not at all. So the fallback branch is dead
      and the id returned is new. */
  lemma AllocateSingleSnapshot(ids: seq<string>)
    requires !MaxSuffix(ids).CastFailure?
    ensures Allocate(ids, ids) == Some(Allocation(FormatId(NextNumber(ids)), false))
    ensures FormatId(NextNumber(ids)) !in ids
  {
    var n := NextNumber(ids);
    var id := FormatId(n);
    FormatIdSuffixCast(n);
    forall i | 0 <= i < |ids| ensures ids[i] != id {
      if IsPId(ids[i]) {
        assert Suffix(ids[i]) != Suffix(id);
      } else {
        assert id[0] == 'P';
      }
    }
  }

  /** The new id's suffix is strictly greater than every suffix already in
      the snapshot (when the new number is within the integer range). */
  lemma AllocatedAboveExisting(ids: seq<string>)
    requires !MaxSuffix(ids).CastFailure?
    requires 0 <= NextNumber(ids) <= Int4Max
    ensures Suffix(FormatId(NextNumber(ids))) == Some(NextNumber(ids))
    ensures forall i :: 0 <= i < |ids| && IsPId(ids[i]) ==>
      Suffix(ids[i]).Some? && Suffix(ids[i]).value < NextNumber(ids)
  {
    SuffixRoundTrip(NextNumber(ids));
  }

  /** The ids of one- digit numbers: P00 and the digit */
  lemma FormatIdOneDigit(n: int)
    requires 0 <= n <= 9
    ensures FormatId(n) == ['P', '0', '0', DigitChar(n)]
  {
    assert IntToString(n) == [DigitChar(n)];
    assert Repeat('0', 2) == ['0', '0'];
    assert PadStart([DigitChar(n)], 3, '0') == ['0', '0', DigitChar(n)];
  }

  /** With no P ids at all (MAX is NULL) the first id is P001. */
  lemma FirstIdIsP001(ids: seq<string>)
    requires forall i :: 0 <= i < |ids| ==> !IsPId(ids[i])
    ensures Allocate(ids, ids) == Some(Allocation("P001", false))
  {
    AllocateSingleSnapshot(ids);
    FormatIdOneDigit(1);
  }

  /** The ids of the numbers 1 to k, in order */
  function Run(k: nat): (ids: seq<string>)
    ensures |ids| == k
    ensures forall i :: 0 <= i < k ==> ids[i] == FormatId(i + 1)
  {
    if k == 0 then [] else Run(k - 1) + [FormatId(k)]
  }

  /** The maximum over P001 … Pk is k. */
  lemma {:induction false} MaxSuffixRun(k: nat)
    requires 1 <= k <= Int4Max
    ensures MaxSuffix(Run(k)) == MaxOf(k)
  {
    if k == 1 {
      assert Run(0) == [];
      assert MaxSuffix(Run(0)).NoRows?;
    } else {
      MaxSuffixRun(k - 1);
    }
    MaxSuffixAppend(Run(k - 1), k);
  }

  /** The ids P001 to P008 the database is seeded with */
  const SeedIds := ["P001", "P002", "P003", "P004", "P005", "P006", "P007", "P008"]

  lemma SeedIdsAreRun()
    ensures SeedIds == Run(8)
  {
    var ids := Run(8);
    forall i | 0 <= i < 8 ensures ids[i] == SeedIds[i] {
      FormatIdOneDigit(i + 1);
    }
  }

  /** After P001 … Pk comes P(k+1), unchecked fallback not taken. */
  lemma RunNext(ids: seq<string>, k: nat)
    requires 1 <= k < Int4Max && ids == Run(k)
    ensures Allocate(ids, ids) == Some(Allocation(FormatId(k + 1), false))
  {
    MaxSuffixRun(k);
    AllocateSingleSnapshot(ids);
  }

  /** The seeded table leads to P009. */
  lemma SeededStoreNextIsP009()
    ensures Allocate(SeedIds, SeedIds) == Some(Allocation("P009", false))
  {
    SeedIdsAreRun();
    RunNext(SeedIds, 8);
    FormatIdOneDigit(9);
  }

  /** The fallback is not checked: when another request has taken the
      candidate in between, max + 2 is used even if it is taken too. */
  lemma FallbackIsUnchecked()
    ensures Allocate([], ["P001", "P002"]) == Some(Allocation("P002", true))
    ensures "P002" in ["P001", "P002"]
  {
    assert MaxSuffix([]) == NoRows;
    FormatIdOneDigit(1);
    FormatIdOneDigit(2);
  }
}
