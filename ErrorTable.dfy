/**
 * The constants of the `ErrorCode` enum (ErrorCode.java), in declaration order.
 * Each constant carries its `name()`, its negative native code and its message.
 *
 * The declared table counts down from -1 (EPERM) to -131 (ENOTRECOVERABLE) one
 * code at a time, except that -41 and -58 are never declared.  `TableShape`
 * proves exactly that, and the rest of the model reasons from it.
 */
module ErrorTable {

  /** Java's `int`. */
  newtype int32 = x: int | -0x8000_0000 <= x < 0x8000_0000

  /** One enum constant: `name()` and the two `final` fields set by the constructor. */
  datatype ErrorCode = ErrorCode(name: string, errorCode: int32, errorMessage: string)

  /** The name `getErrorName` falls back to. */
  const UnknownErrorName: string := "UNKNOWN_ERROR"

  /** The constants whose errno lies in 1..10. */
  const Errno1To10: seq<ErrorCode> := [
      ErrorCode("EPERM", -1, "Operation not permitted"),
      ErrorCode("ENOENT", -2, "No such file or directory"),
      ErrorCode("ESRCH", -3, "No such process"),
      ErrorCode("EINTR", -4, "Interrupted system call"),
      ErrorCode("EIO", -5, "I/O error"),
      ErrorCode("ENXIO", -6, "No such device or address"),
      ErrorCode("E2BIG", -7, "Argument list too long"),
      ErrorCode("ENOEXEC", -8, "Exec format error"),
      ErrorCode("EBADF", -9, "Bad file number"),
      ErrorCode("ECHILD", -10, "No child processes")
  ]

  /** The constants whose errno lies in 11..20. */
  const Errno11To20: seq<ErrorCode> := [
      ErrorCode("EAGAIN", -11, "Try again"),
      ErrorCode("ENOMEM", -12, "Out of memory"),
      ErrorCode("EACCES", -13, "Permission denied"),
      ErrorCode("EFAULT", -14, "Bad address"),
      ErrorCode("ENOTBLK", -15, "Block device required"),
      ErrorCode("EBUSY", -16, "Device or resource busy"),
      ErrorCode("EEXIST", -17, "File exists"),
      ErrorCode("EXDEV", -18, "Cross-device link"),
      ErrorCode("ENODEV", -19, "No such device"),
      ErrorCode("ENOTDIR", -20, "Not a directory")
  ]

  /** The constants whose errno lies in 21..30. */
  const Errno21To30: seq<ErrorCode> := [
      ErrorCode("EISDIR", -21, "Is a directory"),
      ErrorCode("EINVAL", -22, "Invalid argument"),
      ErrorCode("ENFILE", -23, "File table overflow"),
      ErrorCode("EMFILE", -24, "Too many open files"),
      ErrorCode("ENOTTY", -25, "Not a typewriter"),
      ErrorCode("ETXTBSY", -26, "Text file busy"),
      ErrorCode("EFBIG", -27, "File too large"),
      ErrorCode("ENOSPC", -28, "No space left on device"),
      ErrorCode("ESPIPE", -29, "Illegal seek"),
      ErrorCode("EROFS", -30, "Read-only file system")
  ]

  /** The constants whose errno lies in 31..40. */
  const Errno31To40: seq<ErrorCode> := [
      ErrorCode("EMLINK", -31, "Too many links"),
      ErrorCode("EPIPE", -32, "Broken pipe"),
      ErrorCode("EDOM", -33, "Argument out of range"),
      ErrorCode("ERANGE", -34, "Result too large"),
      ErrorCode("EDEADLK", -35, "Resource deadlock would occur"),
      ErrorCode("ENAMETOOLONG", -36, "Name too long"),
      ErrorCode("ENOLCK", -37, "No record locks available"),
      ErrorCode("ENOSYS", -38, "Function not implemented"),
      ErrorCode("ENOTEMPTY", -39, "Directory not empty"),
      ErrorCode("ELOOP", -40, "Too many symbolic links")
  ]

  /** The constants whose errno lies in 41..50. */
  const Errno41To50: seq<ErrorCode> := [
      ErrorCode("ENOMSG", -42, "No errorMessage of desired type"),
      ErrorCode("EIDRM", -43, "Identifier removed"),
      ErrorCode("ECHRNG", -44, "Channel number out of range"),
      ErrorCode("EL2NSYNC", -45, "Level 2 not synchronized"),
      ErrorCode("EL3HLT", -46, "Level 3 halted"),
      ErrorCode("EL3RST", -47, "Level 3 reset"),
      ErrorCode("ELNRNG", -48, "Link number out of range"),
      ErrorCode("EUNATCH", -49, "Protocol driver not attached"),
      ErrorCode("ENOCSI", -50, "No CSI structure available")
  ]

  /** The constants whose errno lies in 51..60. */
  const Errno51To60: seq<ErrorCode> := [
      ErrorCode("EL2HLT", -51, "Level 2 halted"),
      ErrorCode("EBADE", -52, "Invalid exchange"),
      ErrorCode("EBADR", -53, "Invalid request descriptor"),
      ErrorCode("EXFULL", -54, "Exchange full"),
      ErrorCode("ENOANO", -55, "No anode"),
      ErrorCode("EBADRQC", -56, "Invalid request errorCode"),
      ErrorCode("EBADSLT", -57, "Invalid slot"),
      ErrorCode("EBFONT", -59, "Bad font file format"),
      ErrorCode("ENOSTR", -60, "Not a stream")
  ]

  /** The constants whose errno lies in 61..70. */
  const Errno61To70: seq<ErrorCode> := [
      ErrorCode("ENODATA", -61, "No data available"),
      ErrorCode("ETIME", -62, "Stream timeout"),
      ErrorCode("ENOSR", -63, "Out of streams resources"),
      ErrorCode("ENONET", -64, "Machine is not on the network"),
      ErrorCode("ENOPKG", -65, "Package not installed"),
      ErrorCode("EREMOTE", -66, "Object is remote"),
      ErrorCode("ENOLINK", -67, "Link has been severed"),
      ErrorCode("EADV", -68, "Advertise error"),
      ErrorCode("ESRMNT", -69, "Srmount error"),
      ErrorCode("ECOMM", -70, "Communication error on send")
  ]

  /** The constants whose errno lies in 71..80. */
  const Errno71To80: seq<ErrorCode> := [
      ErrorCode("EPROTO", -71, "Protocol error"),
      ErrorCode("EMULTIHOP", -72, "Multihop attempted"),
      ErrorCode("EDOTDOT", -73, "RFS specific error"),
      ErrorCode("EBADMSG", -74, "Not a data errorMessage"),
      ErrorCode("EOVERFLOW", -75, "Value too large for defined data type"),
      ErrorCode("ENOTUNIQ", -76, "Name not unique on network"),
      ErrorCode("EBADFD", -77, "File descriptor in bad state"),
      ErrorCode("EREMCHG", -78, "Remote address changed"),
      ErrorCode("ELIBACC", -79, "Can not access a needed shared library"),
      ErrorCode("ELIBBAD", -80, "Accessing a corrupted shared library")
  ]

  /** The constants whose errno lies in 81..90. */
  const Errno81To90: seq<ErrorCode> := [
      ErrorCode("ELIBSCN", -81, ".lib section in a.out corrupted"),
      ErrorCode("ELIBMAX", -82, "Attempting to link in too many shared libraries"),
      ErrorCode("ELIBEXEC", -83, "Cannot exec a shared library directly"),
      ErrorCode("EILSEQ", -84, "Illegal byte sequence"),
      ErrorCode("ERESTART", -85, "Interrupted system call should be restarted"),
      ErrorCode("ESTRPIPE", -86, "Streams pipe error"),
      ErrorCode("EUSERS", -87, "Too many users"),
      ErrorCode("ENOTSOCK", -88, "Socket operation on non-socket"),
      ErrorCode("EDESTADDRREQ", -89, "Destination address required"),
      ErrorCode("EMSGSIZE", -90, "errorMessage too long")
  ]

  /** The constants whose errno lies in 91..100. */
  const Errno91To100: seq<ErrorCode> := [
      ErrorCode("EPROTOTYPE", -91, "Protocol wrong type for socket"),
      ErrorCode("ENOPROTOOPT", -92, "Protocol not available"),
      ErrorCode("EPROTONOSUPPORT", -93, "Protocol not supported"),
      ErrorCode("ESOCKTNOSUPPORT", -94, "Socket type not supported"),
      ErrorCode("EOPNOTSUPP", -95, "Operation not supported on transport endpoint"),
      ErrorCode("EPFNOSUPPORT", -96, "Protocol family not supported"),
      ErrorCode("EAFNOSUPPORT", -97, "Address family not supported by protocol"),
      ErrorCode("EADDRINUSE", -98, "Address already in use"),
      ErrorCode("EADDRNOTAVAIL", -99, "Cannot assign requested address"),
      ErrorCode("ENETDOWN", -100, "Network is down")
  ]

  /** The constants whose errno lies in 101..110. */
  const Errno101To110: seq<ErrorCode> := [
      ErrorCode("ENETUNREACH", -101, "Network is unreachable"),
      ErrorCode("ENETRESET", -102, "Network dropped connection because of reset"),
      ErrorCode("ECONNABORTED", -103, "Software caused connection abort"),
      ErrorCode("ECONNRESET", -104, "Connection reset by peer"),
      ErrorCode("ENOBUFS", -105, "No buffer space available"),
      ErrorCode("EISCONN", -106, "Transport endpoint is already connected"),
      ErrorCode("ENOTCONN", -107, "Transport endpoint is not connected"),
      ErrorCode("ESHUTDOWN", -108, "Cannot send after transport endpoint shutdown"),
      ErrorCode("ETOOMANYREFS", -109, "Too many references: cannot splice"),
      ErrorCode("ETIMEDOUT", -110, "Connection timed out")
  ]

  /** The constants whose errno lies in 111..120. */
  const Errno111To120: seq<ErrorCode> := [
      ErrorCode("ECONNREFUSED", -111, "Connection refused"),
      ErrorCode("EHOSTDOWN", -112, "Host is down"),
      ErrorCode("EHOSTUNREACH", -113, "No route to host"),
      ErrorCode("EALREADY", -114, "Operation already in progress"),
      ErrorCode("EINPROGRESS", -115, "Operation now in progress"),
      ErrorCode("ESTALE", -116, "Stale NFS file handle"),
      ErrorCode("EUCLEAN", -117, "Structure needs cleaning"),
      ErrorCode("ENOTNAM", -118, "Not a XENIX named type file"),
      ErrorCode("ENAVAIL", -119, "No XENIX semaphores available"),
      ErrorCode("EISNAM", -120, "Is a named type file")
  ]

  /** The constants whose errno lies in 121..131. */
  const Errno121To131: seq<ErrorCode> := [
      ErrorCode("EREMOTEIO", -121, "Remote I/O error"),
      ErrorCode("EDQUOT", -122, "Quota exceeded"),
      ErrorCode("ENOMEDIUM", -123, "No medium found"),
      ErrorCode("EMEDIUMTYPE", -124, "Wrong medium type"),
      ErrorCode("ECANCELED", -125, "Operation Canceled"),
      ErrorCode("ENOKEY", -126, "Required key not available"),
      ErrorCode("EKEYEXPIRED", -127, "Key has expired"),
      ErrorCode("EKEYREVOKED", -128, "Key has been revoked"),
      ErrorCode("EKEYREJECTED", -129, "Key was rejected by service"),
      ErrorCode("EOWNERDEAD", -130, "Owner died"),
      ErrorCode("ENOTRECOVERABLE", -131, "State not recoverable")
  ]
  /** `values()`: every constant, in declaration order. */
  const Table: seq<ErrorCode> :=
    Errno1To10 + Errno11To20 + Errno21To30 + Errno31To40 + Errno41To50 + Errno51To60 + Errno61To70
    + Errno71To80 + Errno81To90 + Errno91To100 + Errno101To110 + Errno111To120 + Errno121To131

  /** The two codes the table does not declare (ELOOP is -40, ENOMSG -42; EBADSLT is -57, EBFONT -59). */
  predicate IsGap(c: int) {
    c == -41 || c == -58
  }

  /** Exactly the codes some constant of the table carries. */
  predicate IsDeclaredCode(c: int) {
    -131 <= c <= -1 && !IsGap(c)
  }

  /** From one declared code to the next: down by one, or by two across a gap. */
  predicate Step(p: int, q: int) {
    q == p - 1 || (IsGap(p - 1) && q == p - 2)
  }

  /** What every constant satisfies: its code is not a gap and its name is not the fallback. */
  predicate EntryOk(e: ErrorCode) {
    !IsGap(e.errorCode as int) && e.name != UnknownErrorName
  }

  /**
   * `s` starts at code `hi`, ends at code `lo`, moves by `Step` between neighbours,
   * never carries a gap code and never uses the fallback name.
   */
  ghost predicate Segment(s: seq<ErrorCode>, hi: int, lo: int) {
    && |s| > 0
    && s[0].errorCode as int == hi
    && s[|s| - 1].errorCode as int == lo
    && (forall i :: 0 <= i < |s| ==> EntryOk(s[i]))
    && (forall i :: 0 < i < |s| ==> Step(s[i - 1].errorCode as int, s[i].errorCode as int))
  }

  /** Two segments whose ends meet by a `Step` make one segment. */
  lemma SegmentAppend(a: seq<ErrorCode>, b: seq<ErrorCode>, hi: int, mid: int, next: int, lo: int)
    requires Segment(a, hi, mid) && Segment(b, next, lo) && Step(mid, next)
    ensures Segment(a + b, hi, lo)
  {
  }

  // Each block is a segment between its first and its last code; `TableShape` joins them.

  lemma Errno1To10Shape()
    ensures Segment(Errno1To10, -1, -10)
  {
  }

  lemma Errno11To20Shape()
    ensures Segment(Errno11To20, -11, -20)
  {
  }

  lemma Errno21To30Shape()
    ensures Segment(Errno21To30, -21, -30)
  {
  }

  lemma Errno31To40Shape()
    ensures Segment(Errno31To40, -31, -40)
  {
  }

  lemma Errno41To50Shape()
    ensures Segment(Errno41To50, -42, -50)
  {
  }

  lemma Errno51To60Shape()
    ensures Segment(Errno51To60, -51, -60)
  {
  }

  lemma Errno61To70Shape()
    ensures Segment(Errno61To70, -61, -70)
  {
  }

  lemma Errno71To80Shape()
    ensures Segment(Errno71To80, -71, -80)
  {
  }

  lemma Errno81To90Shape()
    ensures Segment(Errno81To90, -81, -90)
  {
  }

  lemma Errno91To100Shape()
    ensures Segment(Errno91To100, -91, -100)
  {
  }

  lemma Errno101To110Shape()
    ensures Segment(Errno101To110, -101, -110)
  {
  }

  lemma Errno111To120Shape()
    ensures Segment(Errno111To120, -111, -120)
  {
  }

  lemma Errno121To131Shape()
    ensures Segment(Errno121To131, -121, -131)
  {
  }

  /** The whole table counts down from -1 to -131, skipping only the gaps. */
  lemma TableShape()
    ensures Segment(Table, -1, -131)
  {
    Errno1To10Shape();
    Errno11To20Shape();
    Errno21To30Shape();
    Errno31To40Shape();
    Errno41To50Shape();
    Errno51To60Shape();
    Errno61To70Shape();
    Errno71To80Shape();
    Errno81To90Shape();
    Errno91To100Shape();
    Errno101To110Shape();
    Errno111To120Shape();
    Errno121To131Shape();
    var s := Errno1To10;
    SegmentAppend(s, Errno11To20, -1, -10, -11, -20);
    s := s + Errno11To20;
    SegmentAppend(s, Errno21To30, -1, -20, -21, -30);
    s := s + Errno21To30;
    SegmentAppend(s, Errno31To40, -1, -30, -31, -40);
    s := s + Errno31To40;
    SegmentAppend(s, Errno41To50, -1, -40, -42, -50);
    s := s + Errno41To50;
    SegmentAppend(s, Errno51To60, -1, -50, -51, -60);
    s := s + Errno51To60;
    SegmentAppend(s, Errno61To70, -1, -60, -61, -70);
    s := s + Errno61To70;
    SegmentAppend(s, Errno71To80, -1, -70, -71, -80);
    s := s + Errno71To80;
    SegmentAppend(s, Errno81To90, -1, -80, -81, -90);
    s := s + Errno81To90;
    SegmentAppend(s, Errno91To100, -1, -90, -91, -100);
    s := s + Errno91To100;
    SegmentAppend(s, Errno101To110, -1, -100, -101, -110);
    s := s + Errno101To110;
    SegmentAppend(s, Errno111To120, -1, -110, -111, -120);
    s := s + Errno111To120;
    SegmentAppend(s, Errno121To131, -1, -120, -121, -131);
    s := s + Errno121To131;
    assert s == Table;
  }

  /** Along a segment the codes strictly decrease. */
  lemma {:induction false} SegmentDescending(s: seq<ErrorCode>, hi: int, lo: int)
    requires Segment(s, hi, lo)
    ensures forall i, j :: 0 <= i < j < |s| ==> s[i].errorCode > s[j].errorCode
    decreases |s|
  {
    if |s| > 1 {
      var t := s[1..];
      assert Segment(t, t[0].errorCode as int, lo) by {
        forall i | 0 < i < |t|
          ensures Step(t[i - 1].errorCode as int, t[i].errorCode as int)
        {
          assert t[i - 1] == s[i] && t[i] == s[i + 1];
        }
      }
      SegmentDescending(t, t[0].errorCode as int, lo);
      forall i, j | 0 <= i < j < |s|
        ensures s[i].errorCode > s[j].errorCode
      {
        if i > 0 {
          assert s[i] == t[i - 1] && s[j] == t[j - 1];
        } else if j > 1 {
          assert s[1] == t[0] && s[j] == t[j - 1];
        }
      }
    }
  }

  /** Every code of a segment lies between its two ends. */
  lemma SegmentBounds(s: seq<ErrorCode>, hi: int, lo: int)
    requires Segment(s, hi, lo)
    ensures forall i :: 0 <= i < |s| ==> lo <= s[i].errorCode as int <= hi
  {
    SegmentDescending(s, hi, lo);
  }

  /** A segment carries every non-gap code between its two ends. */
  lemma {:induction false} SegmentCovers(s: seq<ErrorCode>, hi: int, lo: int, c: int)
    requires Segment(s, hi, lo)
    requires lo <= c <= hi && !IsGap(c)
    ensures exists i :: 0 <= i < |s| && s[i].errorCode as int == c
    decreases |s|
  {
    if c != hi {
      var t := s[1..];
      assert Segment(t, t[0].errorCode as int, lo) by {
        forall i | 0 < i < |t|
          ensures Step(t[i - 1].errorCode as int, t[i].errorCode as int)
        {
          assert t[i - 1] == s[i] && t[i] == s[i + 1];
        }
      }
      assert Step(hi, t[0].errorCode as int);
      SegmentCovers(t, t[0].errorCode as int, lo, c);
      var i :| 0 <= i < |t| && t[i].errorCode as int == c;
      assert s[i + 1] == t[i];
    }
  }

  /** There are 129 constants. */
  lemma TableSize()
    ensures |Table| == 129
  {
  }

  /** Declaration order lists the codes in strictly decreasing order, so no two constants share a code. */
  lemma TableCodesDescending()
    ensures forall i, j :: 0 <= i < j < |Table| ==> Table[i].errorCode > Table[j].errorCode
    ensures forall i, j :: 0 <= i < |Table| && 0 <= j < |Table| && i != j ==> Table[i].errorCode != Table[j].errorCode
  {
    TableShape();
    SegmentDescending(Table, -1, -131);
  }

  /** Every constant carries a declared (and hence negative) code and a name other than the fallback. */
  lemma TableEntriesDeclared()
    ensures forall i :: 0 <= i < |Table| ==> IsDeclaredCode(Table[i].errorCode as int) && Table[i].errorCode < 0
    ensures forall i :: 0 <= i < |Table| ==> Table[i].name != UnknownErrorName
  {
    TableShape();
    SegmentBounds(Table, -1, -131);
  }

  /** Every declared code is carried by some constant. */
  lemma TableCoversDeclared(c: int)
    requires IsDeclaredCode(c)
    ensures exists i :: 0 <= i < |Table| && Table[i].errorCode as int == c
  {
    TableShape();
    SegmentCovers(Table, -1, -131, c);
  }

}
