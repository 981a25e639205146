# ErrorCode: native error-code translation of the RADOS Java bindings

This project models `com.ceph.rados.exceptions.ErrorCode`, the enum that turns a
negative native status code returned by librados/librbd into a symbolic name
and a human-readable message. The enum declares 129 POSIX-style constants, each
with a name (`name()`), a negative code (`getErrorCode()`) and a message
(`getErrorMessage()`). Three static lookups sit on top of that table:

- `getEnum(int)` walks `values()` in declaration order and returns the first
  constant whose code matches, or `null`;
- `getErrorName(int)` returns that constant's name, or `"UNKNOWN_ERROR"`;
- `getErrorMessage(int)` returns that constant's message, or
  `"Unknown error code: "` followed by the code in decimal.

Files:

- `Wrappers.dfy`: `Option`. `None` stands for Java's `null` result of `getEnum`.
- `Decimal.dfy`: how `String.format("%d", n)` renders an `int` (`FormatDecimal`).
  It also holds the parser that undoes the rendering (`ParseDecimal`), with
  round-trip lemmas in both directions.
- `ErrorTable.dfy`: the `int32` newtype for Java `int` and the entry datatype.
  The datatype's destructors `errorCode` and `errorMessage` are the two accessors.
  This file also holds the table, in declaration order, and the proof of its
  shape. The table counts down from -1 (EPERM) to -131 (ENOTRECOVERABLE) in
  steps of one, but -41 and -58 are never declared. So the codes are distinct
  and negative, and no constant is named `UNKNOWN_ERROR`.
  The table is written as thirteen consecutive blocks, one per ten errno values,
  so that each block can be checked entry by entry; their concatenation is the
  declared order.
- `ErrorCode.dfy`: the lookups. `Find` is the specification of the search and
  `SearchValues` is the loop itself. `GetEnum` runs `SearchValues` over the table.
  `GetErrorName` and `GetErrorMessage` are the functions over the result of
  `Find`, because functions cannot call methods. Lemmas: the round trip
  `getEnum(e.getErrorCode()) == e`, the exact set of codes that are found, the
  fallbacks, and concrete cases taken from the declarations.

Both static lookups are total. They have no `requires` and accept every
`int32`.

An unknown code gets no error kind of its own. `getEnum` returns `null`, and
`getErrorName` returns the bare `"UNKNOWN_ERROR"`. Only `getErrorMessage(int)`
embeds the code.

## Model

| member | source | states |
|---|---|---|
| ErrorTable.TableShape | src/main/java/com/ceph/rados/exceptions/ErrorCode.java:25-153 | the declared constants, in order, start at -1 and end at -131. Each code is one below the previous one, or two below when the skipped code is -41 or -58. No constant carries -41 or -58, and none is named UNKNOWN_ERROR |
| ErrorTable.Errno1To10Shape | src/main/java/com/ceph/rados/exceptions/ErrorCode.java:25-34 | the constants EPERM to ECHILD run from code -1 to -10. Neighbours are one apart, or two apart across a skipped code. None carries -41 or -58, and none is named UNKNOWN_ERROR |
| ErrorTable.Errno11To20Shape | src/main/java/com/ceph/rados/exceptions/ErrorCode.java:35-44 | the constants EAGAIN to ENOTDIR run from code -11 to -20. Neighbours are one apart, or two apart across a skipped code. None carries -41 or -58, and none is named UNKNOWN_ERROR |
| ErrorTable.Errno21To30Shape | src/main/java/com/ceph/rados/exceptions/ErrorCode.java:45-54 | the constants EISDIR to EROFS run from code -21 to -30. Neighbours are one apart, or two apart across a skipped code. None carries -41 or -58, and none is named UNKNOWN_ERROR |
| ErrorTable.Errno31To40Shape | src/main/java/com/ceph/rados/exceptions/ErrorCode.java:55-64 | the constants EMLINK to ELOOP run from code -31 to -40. Neighbours are one apart, or two apart across a skipped code. None carries -41 or -58, and none is named UNKNOWN_ERROR |
| ErrorTable.Errno41To50Shape | src/main/java/com/ceph/rados/exceptions/ErrorCode.java:65-73 | the constants ENOMSG to ENOCSI run from code -42 to -50. Neighbours are one apart, or two apart across a skipped code. None carries -41 or -58, and none is named UNKNOWN_ERROR |
| ErrorTable.Errno51To60Shape | src/main/java/com/ceph/rados/exceptions/ErrorCode.java:74-82 | the constants EL2HLT to ENOSTR run from code -51 to -60. Neighbours are one apart, or two apart across a skipped code. None carries -41 or -58, and none is named UNKNOWN_ERROR |
| ErrorTable.Errno61To70Shape | src/main/java/com/ceph/rados/exceptions/ErrorCode.java:83-92 | the constants ENODATA to ECOMM run from code -61 to -70. Neighbours are one apart, or two apart across a skipped code. None carries -41 or -58, and none is named UNKNOWN_ERROR |
| ErrorTable.Errno71To80Shape | src/main/java/com/ceph/rados/exceptions/ErrorCode.java:93-102 | the constants EPROTO to ELIBBAD run from code -71 to -80. Neighbours are one apart, or two apart across a skipped code. None carries -41 or -58, and none is named UNKNOWN_ERROR |
| ErrorTable.Errno81To90Shape | src/main/java/com/ceph/rados/exceptions/ErrorCode.java:103-112 | the constants ELIBSCN to EMSGSIZE run from code -81 to -90. Neighbours are one apart, or two apart across a skipped code. None carries -41 or -58, and none is named UNKNOWN_ERROR |
| ErrorTable.Errno91To100Shape | src/main/java/com/ceph/rados/exceptions/ErrorCode.java:113-122 | the constants EPROTOTYPE to ENETDOWN run from code -91 to -100. Neighbours are one apart, or two apart across a skipped code. None carries -41 or -58, and none is named UNKNOWN_ERROR |
| ErrorTable.Errno101To110Shape | src/main/java/com/ceph/rados/exceptions/ErrorCode.java:123-132 | the constants ENETUNREACH to ETIMEDOUT run from code -101 to -110. Neighbours are one apart, or two apart across a skipped code. None carries -41 or -58, and none is named UNKNOWN_ERROR |
| ErrorTable.Errno111To120Shape | src/main/java/com/ceph/rados/exceptions/ErrorCode.java:133-142 | the constants ECONNREFUSED to EISNAM run from code -111 to -120. Neighbours are one apart, or two apart across a skipped code. None carries -41 or -58, and none is named UNKNOWN_ERROR |
| ErrorTable.Errno121To131Shape | src/main/java/com/ceph/rados/exceptions/ErrorCode.java:143-153 | the constants EREMOTEIO to ENOTRECOVERABLE run from code -121 to -131. Neighbours are one apart, or two apart across a skipped code. None carries -41 or -58, and none is named UNKNOWN_ERROR |
| ErrorTable.TableSize | src/main/java/com/ceph/rados/exceptions/ErrorCode.java:25-153 | the enum declares 129 constants |
| ErrorTable.TableCodesDescending | src/main/java/com/ceph/rados/exceptions/ErrorCode.java:25-153 | in declaration order the codes strictly decrease, so no two constants share a code |
| ErrorTable.TableEntriesDeclared | src/main/java/com/ceph/rados/exceptions/ErrorCode.java:25-153 | every constant's code is negative, lies in -131..-1 and is neither -41 nor -58. No constant's name is UNKNOWN_ERROR |
| ErrorTable.TableCoversDeclared | src/main/java/com/ceph/rados/exceptions/ErrorCode.java:25-153 | every code in -131..-1 other than -41 and -58 is carried by some constant |
| ErrorCodes.Find | src/main/java/com/ceph/rados/exceptions/ErrorCode.java:200-207 | the search yields `None` if and only if no entry has the code. Otherwise it yields an entry with that code, and no earlier entry has that code: the first match in order |
| ErrorCodes.SearchValues | src/main/java/com/ceph/rados/exceptions/ErrorCode.java:201-206 | the loop over `values()` with its early return computes exactly `Find` over the entries it is given |
| ErrorCodes.GetEnum | src/main/java/com/ceph/rados/exceptions/ErrorCode.java:200-207 | `getEnum(errorCode)` returns the first constant in declaration order with that code, or `None` for `null` |
| ErrorCodes.GetErrorName | src/main/java/com/ceph/rados/exceptions/ErrorCode.java:176-182 | returns the found constant's name. The result is UNKNOWN_ERROR if and only if `getEnum` finds nothing |
| ErrorCodes.GetErrorMessage | src/main/java/com/ceph/rados/exceptions/ErrorCode.java:188-194 | returns the found constant's stored message. Otherwise it returns the prefix `Unknown error code: ` followed by the decimal rendering of the code, and that suffix parses back to the code |
| ErrorCodes.FindRoundTripOnSegment | src/main/java/com/ceph/rados/exceptions/ErrorCode.java:200-207 | in any table of the declared shape (codes -1 down to -131, skipping -41 and -58), searching for an entry's code finds that very entry |
| ErrorCodes.GetEnumRoundTrip | src/main/java/com/ceph/rados/exceptions/ErrorCode.java:200-207 | for every declared constant `e`, `getEnum(e.getErrorCode())` returns `e` itself |
| ErrorCodes.AccessorsAgreeWithLookups | src/main/java/com/ceph/rados/exceptions/ErrorCode.java:163-169 | for every declared constant `e`, the static lookups on its code return `e.name()` and `e.getErrorMessage()` |
| ErrorCodes.FindOnSegment | src/main/java/com/ceph/rados/exceptions/ErrorCode.java:200-207 | in any table of the declared shape, the search succeeds if and only if the code lies in -131..-1 and is neither -41 nor -58 |
| ErrorCodes.GetEnumFindsExactlyDeclared | src/main/java/com/ceph/rados/exceptions/ErrorCode.java:25-153 | `getEnum(c)` is non-null if and only if c lies in -131..-1 and is neither -41 nor -58 |
| ErrorCodes.GetEnumNullOutsideTable | src/main/java/com/ceph/rados/exceptions/ErrorCode.java:206 | 0, every positive code, every code below -131, -41 and -58 all resolve to `null` |
| ErrorCodes.ErrorNameFallback | src/main/java/com/ceph/rados/exceptions/ErrorCode.java:176-182 | `getErrorName(c)` is UNKNOWN_ERROR if and only if c is not a declared code |
| ErrorCodes.FallbackMessagesDistinct | src/main/java/com/ceph/rados/exceptions/ErrorCode.java:188-194 | two different undeclared codes never produce the same fallback message |
| ErrorCodes.EnoentExample | src/main/java/com/ceph/rados/exceptions/ErrorCode.java:26 | `getErrorName(-2)` is ENOENT and `getErrorMessage(-2)` is "No such file or directory" |
| ErrorCodes.EbusyExample | src/main/java/com/ceph/rados/exceptions/ErrorCode.java:40 | `getErrorMessage(-16)` is "Device or resource busy" and `getErrorName(-16)` is EBUSY |
| ErrorCodes.FallbackExample | src/main/java/com/ceph/rados/exceptions/ErrorCode.java:193 | for the skipped code -41, the name is UNKNOWN_ERROR and the message is "Unknown error code: -41" |
| Decimal.NatToDigits | src/main/java/com/ceph/rados/exceptions/ErrorCode.java:193 | the digits of a magnitude: non-empty, all decimal digits, and a leading '0' only for zero itself |
| Decimal.FormatDecimal | src/main/java/com/ceph/rados/exceptions/ErrorCode.java:193 | `%d` rendering: non-empty, and it starts with '-' exactly for negative values |
| Decimal.FormatThenParse | src/main/java/com/ceph/rados/exceptions/ErrorCode.java:193 | parsing the rendering of any integer gives that integer back |
| Decimal.ParseThenFormat | src/main/java/com/ceph/rados/exceptions/ErrorCode.java:193 | rendering the value of a canonical decimal string (no leading zeros, no "-0") gives the string back |
| Decimal.FormatInjective | src/main/java/com/ceph/rados/exceptions/ErrorCode.java:193 | different integers render as different strings |

## Left out

- src/test/java/com/ceph/rbd/TestRbd.java is not part of this model. It holds the session, pool-context, image, snapshot and clone tests, which run against a live cluster through native calls. The classes they drive (`Rados`, `Rbd`, `RbdImage`, `IoCTX`) are not part of this model either.
- `Rbd.getVersion()` is left out because it is a foreign call into the native library.
- The library-level failure kinds (InvalidState, NotFound, Busy, ...) are not defined in ErrorCode.java and are not modelled.
- Java's `String.format` is modelled only for `%d` of an `int`, with ASCII digits. Locale-specific digits and grouping are not modelled.
- `values()` copies the enum's array on each call. The model reads the same immutable sequence instead, because the copy cannot be observed.
- Enum identity (`==` on constants) is modelled as equality of datatype values. The two coincide here because no two constants share a code.
- `name()` comes from reflection in Java. The model stores it as a field of each entry.
- GetErrorMessage: the model does not prove that no declared message starts with `Unknown error code: `. The source does not promise it either. So the message alone does not tell a declared code from an undeclared one; the name does (ErrorNameFallback).
