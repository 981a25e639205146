/**
 * The lookups of ErrorCode.java: `getEnum` (a search of `values()` in declaration
 * order), `getErrorName` and `getErrorMessage(int)` with their fallbacks.
 * The instance accessors `getErrorCode()` and `getErrorMessage()` are the
 * destructors `errorCode` and `errorMessage` of `ErrorTable.ErrorCode`.
 */
module ErrorCodes {
  import opened Wrappers
  import opened Decimal
  import opened ErrorTable

  /** What `getErrorMessage(int)` puts in front of the rendered code it does not know. */
  const UnknownCodePrefix: string := "Unknown error code: "

  /** The first constant of `entries`, in order, whose code is `code`; `None` plays Java's `null`. */
  function Find(entries: seq<ErrorCode>, code: int32): (r: Option<ErrorCode>)
    ensures r.None? <==> forall i :: 0 <= i < |entries| ==> entries[i].errorCode != code
    ensures r.Some? ==> exists i :: 0 <= i < |entries| && entries[i] == r.value && r.value.errorCode == code &&
                                    forall j :: 0 <= j < i ==> entries[j].errorCode != code
    decreases |entries|
  {
    if |entries| == 0 then None
    else if entries[0].errorCode == code then Some(entries[0])
    else
      var r := Find(entries[1..], code);
      assert forall i :: 0 < i < |entries| ==> entries[i] == entries[1..][i - 1];
      r
  }

  /** The `for` loop of `getEnum` over the array `values` returns, with its early return. */
  method SearchValues(values: seq<ErrorCode>, errorCode: int32) returns (r: Option<ErrorCode>)
    ensures r == Find(values, errorCode)
  {
    var i := 0;
    while i < |values|
      invariant 0 <= i <= |values|
      invariant Find(values, errorCode) == Find(values[i..], errorCode)
    {
      if values[i].errorCode == errorCode {
        return Some(values[i]);
      }
      FindSkips(values, i, errorCode);
      i := i + 1;
    }
    return None;
  }

  /** `getEnum(errorCode)`: the search of `values()`, i.e. of the table in declaration order. */
  method GetEnum(errorCode: int32) returns (r: Option<ErrorCode>)
    ensures r == Find(Table, errorCode)
  {
    r := SearchValues(Table, errorCode);
  }

  /** A search that passes over a non-matching entry continues with the rest. */
  lemma FindSkips(s: seq<ErrorCode>, i: nat, code: int32)
    requires i < |s| && s[i].errorCode != code
    ensures Find(s[i..], code) == Find(s[i + 1..], code)
  {
  }

  /** `getErrorName(errorCode)`. */
  function GetErrorName(errorCode: int32): (r: string)
    ensures Find(Table, errorCode).Some? ==> r == Find(Table, errorCode).value.name
    ensures r == UnknownErrorName <==> Find(Table, errorCode).None?
  {
    match Find(Table, errorCode)
    case Some(e) =>
      TableEntriesDeclared();
      e.name
    case None => UnknownErrorName
  }

  /** `getErrorMessage(errorCode)`; the fallback ends in the code itself, which can be read back. */
  function GetErrorMessage(errorCode: int32): (r: string)
    ensures Find(Table, errorCode).Some? ==> r == Find(Table, errorCode).value.errorMessage
    ensures Find(Table, errorCode).None? ==>
              && r == UnknownCodePrefix + FormatDecimal(errorCode as int)
              && ParseDecimal(r[|UnknownCodePrefix|..]) == Some(errorCode as int)
  {
    match Find(Table, errorCode)
    case Some(e) => e.errorMessage
    case None =>
      var r := UnknownCodePrefix + FormatDecimal(errorCode as int);
      assert r[|UnknownCodePrefix|..] == FormatDecimal(errorCode as int);
      FormatThenParse(errorCode as int);
      r
  }

  /** When the codes of `s` are pairwise distinct, looking up the code of any entry finds that entry. */
  lemma FindDistinct(s: seq<ErrorCode>, k: nat)
    requires k < |s|
    requires forall i, j :: 0 <= i < j < |s| ==> s[i].errorCode != s[j].errorCode
    ensures Find(s, s[k].errorCode) == Some(s[k])
  {
  }

  /** In a table of the declared shape, looking up the code of any entry finds that entry. */
  lemma FindRoundTripOnSegment(t: seq<ErrorCode>, e: ErrorCode)
    requires Segment(t, -1, -131) && e in t
    ensures Find(t, e.errorCode) == Some(e)
  {
    var k :| 0 <= k < |t| && t[k] == e;
    SegmentDescending(t, -1, -131);
    FindDistinct(t, k);
  }

  /** `getEnum(e.getErrorCode()) == e` for every constant `e` of `values()`. */
  lemma GetEnumRoundTrip(i: nat)
    requires i < |Table|
    ensures Find(Table, Table[i].errorCode) == Some(Table[i])
  {
    TableShape();
    FindRoundTripOnSegment(Table, Table[i]);
  }

  /** For a constant `e`, the static lookups on `e.getErrorCode()` agree with `e.name()` and `e.getErrorMessage()`. */
  lemma AccessorsAgreeWithLookups(i: nat)
    requires i < |Table|
    ensures GetErrorName(Table[i].errorCode) == Table[i].name
    ensures GetErrorMessage(Table[i].errorCode) == Table[i].errorMessage
  {
    GetEnumRoundTrip(i);
  }

  /** In a table of the declared shape, a search succeeds exactly for the declared codes. */
  lemma FindOnSegment(t: seq<ErrorCode>, c: int32)
    requires Segment(t, -1, -131)
    ensures Find(t, c).Some? <==> IsDeclaredCode(c as int)
  {
    SegmentBounds(t, -1, -131);
    if IsDeclaredCode(c as int) {
      SegmentCovers(t, -1, -131, c as int);
    }
  }

  /** `getEnum` finds a constant exactly for the 129 declared codes: -131..-1 without -41 and -58. */
  lemma GetEnumFindsExactlyDeclared(c: int32)
    ensures Find(Table, c).Some? <==> IsDeclaredCode(c as int)
  {
    TableShape();
    FindOnSegment(Table, c);
  }

  /** Zero, every positive code, every code below -131 and the two gaps resolve to `null`. */
  lemma GetEnumNullOutsideTable(c: int32)
    requires c >= 0 || c < -131 || c == -41 || c == -58
    ensures Find(Table, c) == None
  {
    GetEnumFindsExactlyDeclared(c);
  }

  /** `getErrorName` falls back exactly for the codes that are not declared. */
  lemma ErrorNameFallback(c: int32)
    ensures GetErrorName(c) == UnknownErrorName <==> !IsDeclaredCode(c as int)
  {
    GetEnumFindsExactlyDeclared(c);
  }

  /** Two different undeclared codes never share a fallback message. */
  lemma FallbackMessagesDistinct(a: int32, b: int32)
    requires !IsDeclaredCode(a as int) && !IsDeclaredCode(b as int)
    requires GetErrorMessage(a) == GetErrorMessage(b)
    ensures a == b
  {
    GetEnumFindsExactlyDeclared(a);
    GetEnumFindsExactlyDeclared(b);
    assert Some(a as int) == Some(b as int);
  }

  /** ENOENT, declared as -2, read back through both lookups. */
  lemma EnoentExample()
    ensures GetErrorName(-2) == "ENOENT"
    ensures GetErrorMessage(-2) == "No such file or directory"
  {
    var e := Errno1To10[1];
    assert e == ErrorCode("ENOENT", -2, "No such file or directory");
    assert e in Table;
    TableShape();
    FindRoundTripOnSegment(Table, e);
  }

  /** EBUSY, declared as -16, read back through both lookups. */
  lemma EbusyExample()
    ensures GetErrorName(-16) == "EBUSY"
    ensures GetErrorMessage(-16) == "Device or resource busy"
  {
    var e := Errno11To20[5];
    assert e == ErrorCode("EBUSY", -16, "Device or resource busy");
    assert e in Table;
    TableShape();
    FindRoundTripOnSegment(Table, e);
  }

  /** The gap -41 falls back on both lookups. */
  lemma FallbackExample()
    ensures GetErrorName(-41) == "UNKNOWN_ERROR"
    ensures GetErrorMessage(-41) == "Unknown error code: -41"
  {
    GetEnumNullOutsideTable(-41);
  }
}
