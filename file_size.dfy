/**
 * `isFileSizeAllowed` of `src/lib/utils.ts`: a limit written as a count and a
 * unit (`"1MB"`), matched by `/^(\d+)(B|KB|MB|GB)$/`, turned into bytes, and
 * compared strictly with a file size.
 */
module FileSize {
  import opened Wrappers
  import opened Decimal
  import opened JsValue

  datatype SizeUnit = B | KB | MB | GB

  /** The `bytesInUnit` table. */
  function BytesInUnit(u: SizeUnit): nat
  {
    match u
    case B => 1
    case KB => 1024
    case MB => 1024 * 1024
    case GB => 1024 * 1024 * 1024
  }

  function UnitName(u: SizeUnit): string
  {
    match u
    case B => "B"
    case KB => "KB"
    case MB => "MB"
    case GB => "GB"
  }

  function ParseUnit(s: string): (r: Option<SizeUnit>)
    ensures r.Some? ==> UnitName(r.value) == s
  {
    if s == "B" then Some(B)
    else if s == "KB" then Some(KB)
    else if s == "MB" then Some(MB)
    else if s == "GB" then Some(GB)
    else None
  }

  /** The counts the `PowOf2` type admits: 1, 2, 4, ..., 1024. */
  predicate IsPowOf2Count(n: nat)
  {
    n in {1, 2, 4, 8, 16, 32, 64, 128, 256, 512, 1024}
  }

  /** The `powOf2` table: each admitted count maps to itself; any other key is missing. */
  function PowOf2Lookup(n: nat): (r: Option<nat>)
    ensures r.Some? <==> IsPowOf2Count(n)
    ensures r.Some? ==> r.value == n
  {
    if IsPowOf2Count(n) then Some(n) else None
  }

  /** Length of the run of ASCII digits at the start of `s`, as the greedy `\d+` takes it. */
  function DigitRun(s: string): (k: nat)
    ensures k <= |s| && AllDigits(s[..k])
    ensures k < |s| ==> !IsDigit(s[k])
    decreases |s|
  {
    if s == [] || !IsDigit(s[0]) then 0
    else
      var k := 1 + DigitRun(s[1..]);
      assert s[..k] == [s[0]] + s[1..][..k - 1];
      k
  }

  /** `s.match(/^(\d+)(B|KB|MB|GB)$/)`: the digit group and the unit group, or no match. */
  function MatchFileSize(s: string): (r: Option<(string, SizeUnit)>)
    ensures r.Some? ==> 1 <= |r.value.0| && AllDigits(r.value.0) && s == r.value.0 + UnitName(r.value.1)
  {
    var k := DigitRun(s);
    if k == 0 then None
    else match ParseUnit(s[k..])
      case None => None
      case Some(u) =>
        assert s == s[..k] + s[k..];
        Some((s[..k], u))
  }

  /**
   * `isFileSizeAllowed(maxFileSize, fileSize)`. A string the pattern does not
   * match makes `match![1]` throw; a count missing from `powOf2` makes the
   * limit `NaN`, and every comparison with `NaN` is false.
   */
  function IsFileSizeAllowed(maxFileSize: string, fileSize: int): (r: Result<bool, JsError>)
    ensures r.Err? <==> MatchFileSize(maxFileSize).None?
  {
    match MatchFileSize(maxFileSize)
    case None => Err(TypeError)
    case Some((digits, unit)) =>
      match PowOf2Lookup(DigitsValue(digits))
      case None => Ok(false)
      case Some(count) => Ok(fileSize < count * BytesInUnit(unit))
  }

  /** A value of the `FileSize` template type: a `PowOf2` count followed by a `SizeUnit`. */
  datatype Limit = Limit(count: nat, unit: SizeUnit)

  predicate ValidLimit(l: Limit)
  {
    IsPowOf2Count(l.count)
  }

  function LimitToString(l: Limit): string
  {
    NatToString(l.count) + UnitName(l.unit)
  }

  function LimitBytes(l: Limit): nat
  {
    l.count * BytesInUnit(l.unit)
  }

  lemma {:induction false} DigitRunOfPrefix(digits: string, rest: string)
    requires AllDigits(digits)
    requires rest == [] || !IsDigit(rest[0])
    ensures DigitRun(digits + rest) == |digits|
    decreases |digits|
  {
    if digits != [] {
      assert (digits + rest)[1..] == digits[1..] + rest;
      DigitRunOfPrefix(digits[1..], rest);
    }
  }

  /** The pattern splits every written limit back into its count and unit. */
  lemma MatchLimit(l: Limit)
    ensures MatchFileSize(LimitToString(l)) == Some((NatToString(l.count), l.unit))
  {
    var digits := NatToString(l.count);
    var s := LimitToString(l);
    DigitRunOfPrefix(digits, UnitName(l.unit));
    assert s[|digits|..] == UnitName(l.unit);
    assert s[..|digits|] == digits;
  }

  /** For every limit the type admits, a size is allowed exactly when it is strictly below count times unit bytes. */
  lemma IsFileSizeAllowedOnLimit(l: Limit, fileSize: int)
    requires ValidLimit(l)
    ensures IsFileSizeAllowed(LimitToString(l), fileSize) == Ok(fileSize < LimitBytes(l))
  {
    MatchLimit(l);
    NatToStringRoundTrip(l.count);
  }

  /** The limit is exclusive: a file of exactly one megabyte is refused under "1MB", one byte less is allowed. */
  lemma OneMegabyteIsExclusive()
    ensures IsFileSizeAllowed("1MB", 1048576) == Ok(false)
    ensures IsFileSizeAllowed("1MB", 1048575) == Ok(true)
  {
    var l := Limit(1, MB);
    assert LimitToString(l) == "1MB";
    IsFileSizeAllowedOnLimit(l, 1048576);
    IsFileSizeAllowedOnLimit(l, 1048575);
  }

  /** A count missing from `powOf2` makes the limit NaN, so no size is allowed, whatever the unit. */
  lemma CountOutsideTableAllowsNothing(l: Limit, fileSize: int)
    requires !ValidLimit(l)
    ensures IsFileSizeAllowed(LimitToString(l), fileSize) == Ok(false)
  {
    MatchLimit(l);
    NatToStringRoundTrip(l.count);
  }

  /** "3MB" escapes the `FileSize` type only at run time; it allows no size at all. */
  lemma ThreeMegabytesAllowsNothing(fileSize: int)
    ensures IsFileSizeAllowed("3MB", fileSize) == Ok(false)
  {
    var l := Limit(3, MB);
    assert LimitToString(l) == "3MB";
    CountOutsideTableAllowsNothing(l, fileSize);
  }
}
