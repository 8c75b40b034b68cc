/**
 * Helpers of the external interface (BCVTB / FMU co-simulation): splitting the
 * ';'-separated variable lists, trimming, the start time of the current day in
 * seconds, the char-array round trip, and the choice of interface mode from the
 * number of ExternalInterface objects of each kind.
 */
module ExternalInterface {
  import opened Wrappers
  import IdfParser

  // ---------------------------------------------------------------------------
  // ParseString

  /** `std::string::find(c, from)`: the first index at or after `from` holding `c`. */
  function Find(s: string, c: char, from: nat): (r: Option<nat>)
    requires from <= |s|
    ensures r.Some? ==> from <= r.value < |s| && s[r.value] == c
    ensures r.Some? ==> forall k :: from <= k < r.value ==> s[k] != c
    ensures r.None? <==> forall k :: from <= k < |s| ==> s[k] != c
    decreases |s| - from
  {
    if from == |s| then None
    else if s[from] == c then Some(from)
    else Find(s, c, from + 1)
  }

  /**
   * One element of ParseString, starting at `iSta`: the upper-cased text up to the next ';'
   * and the start of the next element. Without a further ';' the element runs to the end of
   * the string minus one character; when `iSta` is already at the end, the length
   * `iEnd - iSta - 1` wraps around as an unsigned size and `substr` gives the empty string.
   */
  function Piece(str: string, iSta: nat): (r: (string, nat))
    requires iSta <= |str|
    ensures iSta <= r.1 <= |str|
  {
    match Find(str, ';', iSta)
    case Some(iCol) => (IdfParser.ToUpper(str[iSta..iCol]), iCol + 1)
    case None => (if iSta < |str| then IdfParser.ToUpper(str[iSta..|str| - 1]) else "", |str|)
  }

  /** The `n` elements ParseString produces when it starts reading at `iEnd`. */
  function SplitFrom(str: string, iEnd: nat, n: nat): (ele: seq<string>)
    requires iEnd <= |str|
    ensures |ele| == n
    decreases n
  {
    if n == 0 then []
    else
      var (e, next) := Piece(str, iEnd);
      [e] + SplitFrom(str, next, n - 1)
  }

  /** ParseString: fills `nEle` elements from the ';'-separated string, advancing iSta/iEnd. */
  method ParseString(str: string, nEle: nat) returns (ele: seq<string>)
    ensures |ele| == nEle
    ensures ele == SplitFrom(str, 0, nEle)
  {
    var iEnd: nat := 0;
    ele := [];
    for i := 0 to nEle
      invariant iEnd <= |str|
      invariant |ele| == i
      invariant ele + SplitFrom(str, iEnd, nEle - i) == SplitFrom(str, 0, nEle)
    {
      var iSta := iEnd;
      var e;
      e, iEnd := ReadElement(str, iSta);
      SplitStep(str, ele, iSta, nEle - i);
      ele := ele + [e];
    }
  }

  /**
   * The body of ParseString's loop: `find(';', iSta)`, then the upper-cased `substr` up to the
   * ';' (or, without one, up to the last character), and the next start after the ';'.
   */
  method ReadElement(str: string, iSta: nat) returns (e: string, iEnd: nat)
    requires iSta <= |str|
    ensures (e, iEnd) == Piece(str, iSta)
    ensures iSta <= iEnd <= |str|
  {
    var lenStr := |str|;
    var iCol := Find(str, ';', iSta);
    if iCol.Some? {
      iEnd := iCol.value + 1;
    } else {
      iEnd := lenStr;
    }
    var piece := if iSta < iEnd then str[iSta..iEnd - 1] else "";
    e := IdfParser.ToUpper(piece);
  }

  /** One more element read moves it from the elements still to read to those read. */
  lemma SplitStep(str: string, ele: seq<string>, iSta: nat, n: nat)
    requires iSta <= |str| && n > 0
    ensures (ele + [Piece(str, iSta).0]) + SplitFrom(str, Piece(str, iSta).1, n - 1) == ele + SplitFrom(str, iSta, n)
  {
    assert SplitFrom(str, iSta, n) == [Piece(str, iSta).0] + SplitFrom(str, Piece(str, iSta).1, n - 1);
  }

  /** A list of ';'-free pieces, each followed by ';'. */
  function JoinTerminated(ps: seq<string>): (j: string)
    ensures |ps| > 0 ==> |j| > |ps[0]|
  {
    if ps == [] then "" else ps[0] + ";" + JoinTerminated(ps[1..])
  }

  predicate NoSemicolon(p: string) { forall k :: 0 <= k < |p| ==> p[k] != ';' }

  function MapUpper(ps: seq<string>): (r: seq<string>)
    ensures |r| == |ps|
  {
    if ps == [] then [] else [IdfParser.ToUpper(ps[0])] + MapUpper(ps[1..])
  }

  /** `t` is found in `s` at position `from`. */
  predicate OccursAt(s: string, from: nat, t: string)
  {
    from + |t| <= |s| && forall k :: 0 <= k < |t| ==> s[from + k] == t[k]
  }

  /** Text without a further ';' gives one element without its final character, then empty ones. */
  lemma LastPiece(s: string, from: nat)
    requires from < |s|
    requires forall k :: from <= k < |s| ==> s[k] != ';'
    ensures SplitFrom(s, from, 2) == [IdfParser.ToUpper(s[from..|s| - 1]), ""]
  {
    assert Find(s, ';', from) == None;
    assert Piece(s, from).1 == |s|;
    assert Piece(s, |s|) == ("", |s|);
  }

  /** Where reading resumes after `n` elements. */
  function SkipFrom(str: string, iEnd: nat, n: nat): (r: nat)
    requires iEnd <= |str|
    ensures iEnd <= r <= |str|
    decreases n
  {
    if n == 0 then iEnd else SkipFrom(str, Piece(str, iEnd).1, n - 1)
  }

  /** A ';'-free piece followed by ';' is read as one element, and reading resumes after the ';'. */
  lemma PieceAt(s: string, from: nat, p: string)
    requires NoSemicolon(p) && OccursAt(s, from, p + ";")
    ensures Piece(s, from) == (IdfParser.ToUpper(p), from + |p| + 1)
  {
    forall k | from <= k < from + |p| ensures s[k] != ';' {
      assert s[from + (k - from)] == (p + ";")[k - from];
    }
    assert s[from + |p|] == (p + ";")[|p|];
    assert Find(s, ';', from) == Some(from + |p|);
    assert s[from..from + |p|] == p by {
      forall k | 0 <= k < |p| ensures s[from..from + |p|][k] == p[k] {
        assert s[from + k] == (p + ";")[k];
      }
    }
  }

  /**
   * Splitting a ';'-terminated list, wherever it sits inside a longer string, recovers its
   * pieces upper-cased, and reading resumes right after the list.
   */
  lemma {:induction false} SplitJoinedAt(s: string, from: nat, ps: seq<string>)
    requires forall i :: 0 <= i < |ps| ==> NoSemicolon(ps[i])
    requires OccursAt(s, from, JoinTerminated(ps))
    ensures SplitFrom(s, from, |ps|) == MapUpper(ps)
    ensures SkipFrom(s, from, |ps|) == from + |JoinTerminated(ps)|
    decreases |ps|
  {
    if ps != [] {
      var p, rest := ps[0], JoinTerminated(ps[1..]);
      var j := JoinTerminated(ps);
      var next := from + |p| + 1;
      assert j == (p + ";") + rest;
      assert Piece(s, from) == (IdfParser.ToUpper(p), next) by {
        assert OccursAt(s, from, p + ";") by {
          forall k | 0 <= k < |p + ";"| ensures s[from + k] == (p + ";")[k] {
            assert j[k] == (p + ";")[k];
          }
        }
        PieceAt(s, from, p);
      }
      assert SplitFrom(s, next, |ps| - 1) == MapUpper(ps[1..]) && SkipFrom(s, next, |ps| - 1) == next + |rest| by {
        assert OccursAt(s, next, rest) by {
          forall k | 0 <= k < |rest| ensures s[next + k] == rest[k] {
            assert s[from + (|p| + 1 + k)] == j[|p| + 1 + k];
          }
        }
        assert forall i :: 0 <= i < |ps[1..]| ==> NoSemicolon(ps[1..][i]) by {
          forall i | 0 <= i < |ps[1..]| ensures NoSemicolon(ps[1..][i]) { assert ps[1..][i] == ps[i + 1]; }
        }
        SplitJoinedAt(s, next, ps[1..]);
      }
      assert SplitFrom(s, from, |ps|) == [IdfParser.ToUpper(p)] + SplitFrom(s, next, |ps| - 1);
      assert MapUpper(ps) == [IdfParser.ToUpper(p)] + MapUpper(ps[1..]);
      assert SkipFrom(s, from, |ps|) == SkipFrom(s, next, |ps| - 1);
    }
  }

  /** ParseString applied to a ';'-terminated list returns exactly its pieces, upper-cased. */
  lemma ParseJoined(ps: seq<string>)
    requires forall i :: 0 <= i < |ps| ==> NoSemicolon(ps[i])
    ensures SplitFrom(JoinTerminated(ps), 0, |ps|) == MapUpper(ps)
  {
    SplitJoinedAt(JoinTerminated(ps), 0, ps);
  }

  lemma {:induction false} SplitPrefix(str: string, iEnd: nat, n: nat, m: nat)
    requires iEnd <= |str|
    ensures SplitFrom(str, iEnd, n + m) == SplitFrom(str, iEnd, n) + SplitFrom(str, SkipFrom(str, iEnd, n), m)
    decreases n
  {
    if n > 0 {
      var (e, next) := Piece(str, iEnd);
      SplitPrefix(str, next, n - 1, m);
      assert SplitFrom(str, iEnd, n + m) == [e] + SplitFrom(str, next, (n - 1) + m);
      assert SplitFrom(str, iEnd, n) == [e] + SplitFrom(str, next, n - 1);
      assert SkipFrom(str, iEnd, n) == SkipFrom(str, next, n - 1);
    }
  }

  /**
   * When the last piece is not followed by ';', ParseString keeps it without its final
   * character; an element requested beyond the text is empty.
   */
  lemma ParseUnterminatedLast(ps: seq<string>, q: string)
    requires forall i :: 0 <= i < |ps| ==> NoSemicolon(ps[i])
    requires NoSemicolon(q) && q != []
    ensures SplitFrom(JoinTerminated(ps) + q, 0, |ps| + 2)
         == MapUpper(ps) + [IdfParser.ToUpper(q[..|q| - 1]), ""]
  {
    var j := JoinTerminated(ps);
    var s := j + q;
    assert SplitFrom(s, 0, |ps|) == MapUpper(ps) && SkipFrom(s, 0, |ps|) == |j| by {
      OccursAtStart(j, q);
      SplitJoinedAt(s, 0, ps);
    }
    assert SplitFrom(s, |j|, 2) == [IdfParser.ToUpper(q[..|q| - 1]), ""] by {
      LastPieceAfter(j, q);
    }
    SplitPrefix(s, 0, |ps|, 2);
  }

  lemma OccursAtStart(j: string, q: string)
    ensures OccursAt(j + q, 0, j)
  {
  }

  /** Text without a further ';' gives one element without its final character, then empty ones. */
  lemma LastPieceAfter(j: string, q: string)
    requires NoSemicolon(q) && q != []
    ensures SplitFrom(j + q, |j|, 2) == [IdfParser.ToUpper(q[..|q| - 1]), ""]
  {
    var s := j + q;
    forall k | |j| <= k < |s| ensures s[k] != ';' { assert s[k] == q[k - |j|]; }
    LastPiece(s, |j|);
    assert s[|j|..|s| - 1] == q[..|q| - 1];
  }

  // ---------------------------------------------------------------------------
  // trim

  /**
   * trim: strips leading and trailing spaces (only ' '). For an empty or all-space string
   * `find_first_not_of` gives npos and `substr` throws; that case is `None`.
   */
  function Trim(s: string): (r: Option<string>)
    ensures r.None? <==> forall k :: 0 <= k < |s| ==> s[k] == ' '
    ensures r.Some? ==> exists i, j :: 0 <= i < j <= |s| && r.value == s[i..j]
                          && (forall k :: 0 <= k < i ==> s[k] == ' ')
                          && (forall k :: j <= k < |s| ==> s[k] == ' ')
    ensures r.Some? ==> |r.value| > 0 && r.value[0] != ' ' && r.value[|r.value| - 1] != ' '
  {
    var first := FirstNotSpace(s, 0);
    if first.None? then None
    else
      var last := LastNotSpace(s, |s|);
      assert last.Some? by { assert s[first.value] != ' '; }
      Some(s[first.value..last.value + 1])
  }

  /** `find_first_not_of(' ')` from index `from`. */
  function FirstNotSpace(s: string, from: nat): (r: Option<nat>)
    requires from <= |s|
    ensures r.Some? ==> from <= r.value < |s| && s[r.value] != ' '
                        && forall k :: from <= k < r.value ==> s[k] == ' '
    ensures r.None? <==> forall k :: from <= k < |s| ==> s[k] == ' '
    decreases |s| - from
  {
    if from == |s| then None
    else if s[from] != ' ' then Some(from)
    else FirstNotSpace(s, from + 1)
  }

  /** `find_last_not_of(' ')` among the first `upto` characters. */
  function LastNotSpace(s: string, upto: nat): (r: Option<nat>)
    requires upto <= |s|
    ensures r.Some? ==> r.value < upto && s[r.value] != ' '
                        && forall k :: r.value < k < upto ==> s[k] == ' '
    ensures r.None? <==> forall k :: 0 <= k < upto ==> s[k] == ' '
  {
    if upto == 0 then None
    else if s[upto - 1] != ' ' then Some(upto - 1)
    else LastNotSpace(s, upto - 1)
  }

  /** Trimming a trimmed string changes nothing. */
  lemma TrimIdempotent(s: string)
    requires Trim(s).Some?
    ensures Trim(Trim(s).value) == Trim(s)
  {
    var t := Trim(s).value;
    assert FirstNotSpace(t, 0) == Some(0);
    assert LastNotSpace(t, |t|) == Some(|t| - 1);
    assert t[0..|t|] == t;
  }

  /** Padding with spaces on either side does not change the result of trimming. */
  lemma {:induction false} TrimPadded(a: string, t: string, b: string)
    requires forall k :: 0 <= k < |a| ==> a[k] == ' '
    requires forall k :: 0 <= k < |b| ==> b[k] == ' '
    requires t != [] && t[0] != ' ' && t[|t| - 1] != ' '
    ensures Trim(a + t + b) == Some(t)
  {
    var s := a + t + b;
    assert s[|a|] == t[0];
    assert FirstNotSpace(s, 0) == Some(|a|) by {
      assert forall k :: 0 <= k < |a| ==> s[k] == a[k];
    }
    assert LastNotSpace(s, |s|) == Some(|a| + |t| - 1) by {
      assert s[|a| + |t| - 1] == t[|t| - 1];
      assert forall k :: |a| + |t| <= k < |s| ==> s[k] == b[k - |a| - |t|];
    }
    assert s[|a|..|a| + |t|] == t;
  }

  // ---------------------------------------------------------------------------
  // GetCurSimStartTimeSeconds

  /** Days in a month, as a calendar states it. */
  function MonthDays(month: int, leap: bool): int
  {
    if month == 2 then (if leap then 29 else 28)
    else if month == 4 || month == 6 || month == 9 || month == 11 then 30
    else 31
  }

  /** Days in the months before `month` (an independent reference for the switch tables). */
  function DaysBefore(month: int, leap: bool): int
    decreases month
  {
    if month <= 1 then 0 else DaysBefore(month - 1, leap) + MonthDays(month - 1, leap)
  }

  /** The cumulative-day switch of GetCurSimStartTimeSeconds; a month outside 1..12 gives 0. */
  function CumDays(month: int, leap: bool): (d: int)
    ensures 0 <= d <= 335
  {
    var base :=
      match month
      case 1 => 0
      case 2 => 31
      case 3 => 59
      case 4 => 90
      case 5 => 120
      case 6 => 151
      case 7 => 181
      case 8 => 212
      case 9 => 243
      case 10 => 273
      case 11 => 304
      case 12 => 334
      case _ => 0;
    if leap && 3 <= month <= 12 then base + 1 else base
  }

  /** The tables agree with the calendar: each entry is the sum of the lengths of the preceding months. */
  lemma {:induction false} CumDaysAreMonthSums(month: int, leap: bool)
    requires 1 <= month <= 12
    ensures CumDays(month, leap) == DaysBefore(month, leap)
  {
    if month > 1 {
      CumDaysAreMonthSums(month - 1, leap);
    }
  }

  /** The leap-year table is the ordinary one plus one day from March on. */
  lemma LeapOffset(month: int)
    ensures CumDays(month, true) == CumDays(month, false) + (if 3 <= month <= 12 then 1 else 0)
  {
  }

  predicate ValidDate(month: int, dayOfMonth: int, hourOfDay: int, leap: bool)
  {
    1 <= month <= 12 && 1 <= dayOfMonth <= MonthDays(month, leap) && 1 <= hourOfDay <= 24
  }

  /** GetCurSimStartTimeSeconds: seconds from the start of the year to the start of the current hour. */
  function CurSimStartTimeSeconds(month: int, dayOfMonth: int, hourOfDay: int, leap: bool): int
  {
    60 * (60 * (24 * (CumDays(month, leap) + (dayOfMonth - 1)) + (hourOfDay - 1)))
  }

  /** For a date of the year, the start of the current hour lies inside the year. */
  lemma StartTimeWithinYear(month: int, dayOfMonth: int, hourOfDay: int, leap: bool)
    requires ValidDate(month, dayOfMonth, hourOfDay, leap)
    ensures var t := CurSimStartTimeSeconds(month, dayOfMonth, hourOfDay, leap);
            0 <= t && t + 3600 <= (if leap then 366 else 365) * 86400
  {
    assert CumDays(month, leap) + MonthDays(month, leap) <= (if leap then 366 else 365);
  }

  /** Each later hour of the same day starts 3600 seconds later; the next day starts 86400 later. */
  lemma StartTimeSteps(month: int, dayOfMonth: int, hourOfDay: int, leap: bool)
    ensures CurSimStartTimeSeconds(month, dayOfMonth, hourOfDay + 1, leap)
         == CurSimStartTimeSeconds(month, dayOfMonth, hourOfDay, leap) + 3600
    ensures CurSimStartTimeSeconds(month, dayOfMonth + 1, hourOfDay, leap)
         == CurSimStartTimeSeconds(month, dayOfMonth, hourOfDay, leap) + 86400
  {
  }

  // ---------------------------------------------------------------------------
  // getCharArrayFromString / getStringFromCharArray

  /** getCharArrayFromString: the characters of the string, without a terminating NUL. */
  function CharArrayFromString(s: string): (v: seq<char>)
    ensures |v| == |s|
  {
    s
  }

  /** getStringFromCharArray: appends a NUL and reads a C string, i.e. stops at the first NUL. */
  function StringFromCharArray(v: seq<char>): (s: string)
    ensures |s| <= |v|
    ensures s == v[..|s|]
    ensures forall k :: 0 <= k < |s| ==> s[k] != '\0'
    ensures |s| < |v| ==> v[|s|] == '\0'
  {
    var w := v + ['\0'];
    assert w[|v|] == '\0';
    CString(w)
  }

  /** The characters before the first NUL. */
  function CString(v: seq<char>): (s: string)
    ensures |s| <= |v| && s == v[..|s|]
    ensures forall k :: 0 <= k < |s| ==> s[k] != '\0'
    ensures |s| < |v| ==> v[|s|] == '\0'
  {
    if v == [] || v[0] == '\0' then [] else [v[0]] + CString(v[1..])
  }

  predicate NoNul(s: string) { forall k :: 0 <= k < |s| ==> s[k] != '\0' }

  /** Round trip: a string without NUL survives conversion to a char array and back. */
  lemma CharArrayRoundTrip(s: string)
    requires NoNul(s)
    ensures StringFromCharArray(CharArrayFromString(s)) == s
  {
    var r := StringFromCharArray(s);
    assert |r| == |s|;
  }

  /** With an embedded NUL the round trip keeps only the text before it. */
  lemma CharArrayTruncatesAtNul(a: string, b: string)
    requires NoNul(a)
    ensures StringFromCharArray(CharArrayFromString(a + ['\0'] + b)) == a
  {
    var v := a + ['\0'] + b;
    var r := StringFromCharArray(v);
    assert v[|a|] == '\0';
    assert |r| == |a|;
  }

  // ---------------------------------------------------------------------------
  // Interface-mode selection in GetExternalInterfaceInput

  /** Which co-simulation interfaces the object counts switch on, and whether they clash. */
  datatype ModeSelection = ModeSelection(
    haveBCVTB: bool,
    haveFMUExport: bool,
    haveFMUImport: bool,
    fmuExportActivate: int,
    errors: bool)

  /** The if-chains of GetExternalInterfaceInput, as a function of the three object counts. */
  function SelectMode(numBCVTB: nat, numFMUImport: nat, numFMUExport: nat): (m: ModeSelection)
    ensures m.haveBCVTB <==> numBCVTB == 1 && numFMUExport == 0
    ensures m.haveFMUExport <==> numBCVTB == 0 && numFMUExport == 1
    ensures m.haveFMUImport <==> numFMUImport == 1 && numFMUExport == 0
    ensures m.fmuExportActivate == (if m.haveFMUExport then 1 else 0)
    ensures m.errors <==> (numBCVTB == 1 && numFMUExport != 0) || (numFMUImport == 1 && numFMUExport != 0)
                          || numBCVTB > 1 || numFMUExport > 1 || numFMUImport > 1
  {
    var bcvtb := numBCVTB == 1 && numFMUExport == 0;
    var fmuExport := !bcvtb && numBCVTB == 0 && numFMUExport == 1;
    var clash1 := !bcvtb && !fmuExport && numBCVTB == 1 && numFMUExport != 0;
    var fmuImport := numFMUImport == 1 && numFMUExport == 0;
    var clash2 := !fmuImport && numFMUImport == 1 && numFMUExport != 0;
    ModeSelection(bcvtb, fmuExport, fmuImport, if fmuExport then 1 else 0,
                  clash1 || clash2 || numBCVTB > 1 || numFMUExport > 1 || numFMUImport > 1)
  }

  /**
   * Without an error at most one of BCVTB and FMU export is active and FMU export excludes FMU
   * import; conversely, counts of at most one with no clashing pair never raise an error.
   */
  lemma SelectModeConsistent(numBCVTB: nat, numFMUImport: nat, numFMUExport: nat)
    ensures var m := SelectMode(numBCVTB, numFMUImport, numFMUExport);
            !m.errors <==> numBCVTB <= 1 && numFMUImport <= 1 && numFMUExport <= 1
                           && numBCVTB + numFMUExport <= 1 && numFMUImport + numFMUExport <= 1
    ensures var m := SelectMode(numBCVTB, numFMUImport, numFMUExport);
            !m.errors ==> !(m.haveBCVTB && m.haveFMUExport) && !(m.haveFMUImport && m.haveFMUExport)
                          && (m.haveBCVTB <==> numBCVTB == 1) && (m.haveFMUExport <==> numFMUExport == 1)
                          && (m.haveFMUImport <==> numFMUImport == 1)
  {
  }

  /** The interface-related state of the external-interface module. */
  class ExternalInterfaceData {
    var numExternalInterfacesBCVTB: nat
    var numExternalInterfacesFMUImport: nat
    var numExternalInterfacesFMUExport: nat
    var haveExternalInterfaceBCVTB: bool
    var haveExternalInterfaceFMUExport: bool
    var haveExternalInterfaceFMUImport: bool
    var fmuExportActivate: int
    var errorsFound: bool

    constructor ()
      ensures numExternalInterfacesBCVTB == 0 && numExternalInterfacesFMUImport == 0
      ensures numExternalInterfacesFMUExport == 0
      ensures !haveExternalInterfaceBCVTB && !haveExternalInterfaceFMUExport && !haveExternalInterfaceFMUImport
      ensures fmuExportActivate == 0 && !errorsFound
    {
      numExternalInterfacesBCVTB, numExternalInterfacesFMUImport, numExternalInterfacesFMUExport := 0, 0, 0;
      haveExternalInterfaceBCVTB, haveExternalInterfaceFMUExport, haveExternalInterfaceFMUImport := false, false, false;
      fmuExportActivate := 0;
      errorsFound := false;
    }

    /**
     * GetExternalInterfaceInput: counts the ExternalInterface objects of each kind, then
     * selects the interface mode from the totals.
     */
    method GetExternalInterfaceInput(kinds: seq<string>)
      modifies this
      ensures numExternalInterfacesBCVTB == old(numExternalInterfacesBCVTB) + CountKind(kinds, "PTOLEMYSERVER")
      ensures numExternalInterfacesFMUImport == old(numExternalInterfacesFMUImport) + CountKind(kinds, "FUNCTIONALMOCKUPUNITIMPORT")
      ensures numExternalInterfacesFMUExport == old(numExternalInterfacesFMUExport) + CountKind(kinds, "FUNCTIONALMOCKUPUNITEXPORT")
      ensures var m := SelectMode(numExternalInterfacesBCVTB, numExternalInterfacesFMUImport, numExternalInterfacesFMUExport);
              haveExternalInterfaceBCVTB == (m.haveBCVTB || old(haveExternalInterfaceBCVTB))
              && haveExternalInterfaceFMUExport == (m.haveFMUExport || old(haveExternalInterfaceFMUExport))
              && haveExternalInterfaceFMUImport == (m.haveFMUImport || old(haveExternalInterfaceFMUImport))
              && fmuExportActivate == (if m.haveFMUExport then 1 else old(fmuExportActivate))
              && errorsFound == (m.errors || old(errorsFound))
    {
      CountInterfaces(kinds);
      SelectInterfaceMode();
    }

    /**
     * The counting loop: `kinds` holds the first alpha field of each ExternalInterface
     * object; names compare case-insensitively (Util::SameString).
     */
    method CountInterfaces(kinds: seq<string>)
      modifies this`numExternalInterfacesBCVTB, this`numExternalInterfacesFMUImport, this`numExternalInterfacesFMUExport
      ensures numExternalInterfacesBCVTB == old(numExternalInterfacesBCVTB) + CountKind(kinds, "PTOLEMYSERVER")
      ensures numExternalInterfacesFMUImport == old(numExternalInterfacesFMUImport) + CountKind(kinds, "FUNCTIONALMOCKUPUNITIMPORT")
      ensures numExternalInterfacesFMUExport == old(numExternalInterfacesFMUExport) + CountKind(kinds, "FUNCTIONALMOCKUPUNITEXPORT")
    {
      for i := 0 to |kinds|
        invariant numExternalInterfacesBCVTB == old(numExternalInterfacesBCVTB) + CountKind(kinds[..i], "PTOLEMYSERVER")
        invariant numExternalInterfacesFMUImport == old(numExternalInterfacesFMUImport) + CountKind(kinds[..i], "FUNCTIONALMOCKUPUNITIMPORT")
        invariant numExternalInterfacesFMUExport == old(numExternalInterfacesFMUExport) + CountKind(kinds[..i], "FUNCTIONALMOCKUPUNITEXPORT")
      {
        assert kinds[..i + 1] == kinds[..i] + [kinds[i]];
        CountKindSnoc(kinds[..i], kinds[i], "PTOLEMYSERVER");
        CountKindSnoc(kinds[..i], kinds[i], "FUNCTIONALMOCKUPUNITIMPORT");
        CountKindSnoc(kinds[..i], kinds[i], "FUNCTIONALMOCKUPUNITEXPORT");
        var kind := IdfParser.ToUpper(kinds[i]);
        if kind == "PTOLEMYSERVER" {
          numExternalInterfacesBCVTB := numExternalInterfacesBCVTB + 1;
        } else if kind == "FUNCTIONALMOCKUPUNITIMPORT" {
          numExternalInterfacesFMUImport := numExternalInterfacesFMUImport + 1;
        } else if kind == "FUNCTIONALMOCKUPUNITEXPORT" {
          numExternalInterfacesFMUExport := numExternalInterfacesFMUExport + 1;
        }
      }
      assert kinds[..|kinds|] == kinds;
    }

    /**
     * The mode selection from the totals. A flag that is not selected keeps its previous
     * value, as in the source.
     */
    method SelectInterfaceMode()
      modifies this`haveExternalInterfaceBCVTB, this`haveExternalInterfaceFMUExport, this`haveExternalInterfaceFMUImport
      modifies this`fmuExportActivate, this`errorsFound
      ensures var m := SelectMode(numExternalInterfacesBCVTB, numExternalInterfacesFMUImport, numExternalInterfacesFMUExport);
              haveExternalInterfaceBCVTB == (m.haveBCVTB || old(haveExternalInterfaceBCVTB))
              && haveExternalInterfaceFMUExport == (m.haveFMUExport || old(haveExternalInterfaceFMUExport))
              && haveExternalInterfaceFMUImport == (m.haveFMUImport || old(haveExternalInterfaceFMUImport))
              && fmuExportActivate == (if m.haveFMUExport then 1 else old(fmuExportActivate))
              && errorsFound == (m.errors || old(errorsFound))
    {
      var nB, nI, nE := numExternalInterfacesBCVTB, numExternalInterfacesFMUImport, numExternalInterfacesFMUExport;
      if nB == 1 && nE == 0 {
        haveExternalInterfaceBCVTB := true;
      } else if nB == 0 && nE == 1 {
        haveExternalInterfaceFMUExport := true;
        fmuExportActivate := 1;
      } else if nB == 1 && nE != 0 {
        errorsFound := true;
      }
      if nI == 1 && nE == 0 {
        haveExternalInterfaceFMUImport := true;
      } else if nI == 1 && nE != 0 {
        errorsFound := true;
      }
      if nB > 1 {
        errorsFound := true;
      }
      if nE > 1 {
        errorsFound := true;
      }
      if nI > 1 {
        errorsFound := true;
      }
    }
  }

  /** How many of the names equal `key` once upper-cased (Util::SameString). */
  function CountKind(kinds: seq<string>, key: string): (n: nat)
    ensures n <= |kinds|
  {
    if kinds == [] then 0
    else CountKind(kinds[..|kinds| - 1], key) + (if IdfParser.ToUpper(kinds[|kinds| - 1]) == key then 1 else 0)
  }

  lemma CountKindSnoc(kinds: seq<string>, k: string, key: string)
    ensures CountKind(kinds + [k], key) == CountKind(kinds, key) + (if IdfParser.ToUpper(k) == key then 1 else 0)
  {
    assert (kinds + [k])[..|kinds|] == kinds;
  }
}
