/**
 * The "For: day types" field of Schedule:Week:Compact and Schedule:Compact:
 * ProcessForDayTypes marks, in `these`, the day types the field names and
 * records them in `already`, the day types earlier "For" fields of the same
 * week took, reporting a day type assigned twice and a field that names none.
 *
 * Day types are numbered as in the schedule header: 0 is an unused slot,
 * then Sunday = 1 ... Saturday = 7, Holiday = 8, SummerDesignDay = 9,
 * WinterDesignDay = 10, CustomDay1 = 11, CustomDay2 = 12.
 */
module ScheduleDayTypes {
  import ScheduleData

  const Sunday := 1
  const Monday := 2
  const Tuesday := 3
  const Wednesday := 4
  const Thursday := 5
  const Friday := 6
  const Saturday := 7
  const Holiday := 8
  const SummerDesignDay := 9
  const WinterDesignDay := 10
  const CustomDay1 := 11
  const CustomDay2 := 12

  /** The words the field is searched for, in the order the source tests them. */
  datatype DayKeyword =
    | KwWeekday | KwMonday | KwTuesday | KwWednesday | KwThursday | KwFriday
    | KwWeekend | KwSaturday | KwSunday | KwCustomDay1 | KwCustomDay2
    | KwAllDay | KwHoliday | KwSummer | KwWinter | KwAllOtherDay

  function KeywordText(k: DayKeyword): string
  {
    match k
    case KwWeekday => "WEEKDAY"
    case KwMonday => "MONDAY"
    case KwTuesday => "TUESDAY"
    case KwWednesday => "WEDNESDAY"
    case KwThursday => "THURSDAY"
    case KwFriday => "FRIDAY"
    case KwWeekend => "WEEKEND"
    case KwSaturday => "SATURDAY"
    case KwSunday => "SUNDAY"
    case KwCustomDay1 => "CUSTOMDAY1"
    case KwCustomDay2 => "CUSTOMDAY2"
    case KwAllDay => "ALLDAY"
    case KwHoliday => "HOLIDAY"
    case KwSummer => "SUMMER"
    case KwWinter => "WINTER"
    case KwAllOtherDay => "ALLOTHERDAY"
  }

  /** The day types a keyword assigns outright (ALLOTHERDAY assigns only the
    * day types still free, so it is handled on its own). */
  function KeywordDays(k: DayKeyword): (r: seq<int>)
    ensures forall i :: 0 <= i < |r| ==> 0 <= r[i] < ScheduleData.DayTypeNum
    ensures forall p, q :: 0 <= p < q < |r| ==> r[p] != r[q]
  {
    match k
    case KwWeekday => [Monday, Tuesday, Wednesday, Thursday, Friday]
    case KwMonday => [Monday]
    case KwTuesday => [Tuesday]
    case KwWednesday => [Wednesday]
    case KwThursday => [Thursday]
    case KwFriday => [Friday]
    case KwWeekend => [Sunday, Saturday]
    case KwSaturday => [Saturday]
    case KwSunday => [Sunday]
    case KwCustomDay1 => [CustomDay1]
    case KwCustomDay2 => [CustomDay2]
    case KwAllDay => [0, 1, 2, 3, 4, 5, 6, 7, 8, 9, 10, 11, 12]
    case KwHoliday => [Holiday]
    case KwSummer => [SummerDesignDay]
    case KwWinter => [WinterDesignDay]
    case KwAllOtherDay => []
  }

  /** The keywords that assign their day types outright, in source order. */
  const Assigning: seq<DayKeyword> :=
    [KwWeekday, KwMonday, KwTuesday, KwWednesday, KwThursday, KwFriday, KwWeekend,
     KwSaturday, KwSunday, KwCustomDay1, KwCustomDay2, KwAllDay, KwHoliday, KwSummer, KwWinter]

  /** `word` occurs in `field` (the source's `has`, a plain substring search). */
  predicate Has(field: string, word: string)
  {
    HasFrom(field, word, 0)
  }

  /** `word` occurs in `field` at some position from i on. */
  predicate HasFrom(field: string, word: string, i: nat)
    decreases |field| - i
  {
    i + |word| <= |field| && (field[i..i + |word|] == word || HasFrom(field, word, i + 1))
  }

  predicate Mentions(field: string, k: DayKeyword)
  {
    Has(field, KeywordText(k))
  }

  /** c with one added to every day type in days. */
  function AddDays(c: seq<nat>, days: seq<int>): (r: seq<nat>)
    ensures |r| == |c|
    ensures forall d :: 0 <= d < |c| ==> r[d] == c[d] + (if d in days then 1 else 0)
  {
    seq(|c|, d requires 0 <= d < |c| => c[d] + (if d in days then 1 else 0))
  }

  /** Per day type, how many of the first j assigning keywords the field mentions and give it. */
  function Counts(field: string, j: nat): (c: seq<nat>)
    requires j <= |Assigning|
    ensures |c| == ScheduleData.DayTypeNum
  {
    if j == 0 then seq(ScheduleData.DayTypeNum, _ => 0)
    else AddDays(Counts(field, j - 1), if Mentions(field, Assigning[j - 1]) then KeywordDays(Assigning[j - 1]) else [])
  }

  /** Some assigning keyword among the first j is mentioned. */
  predicate AnyAssigning(field: string, j: nat)
    requires j <= |Assigning|
  {
    exists i :: 0 <= i < j && Mentions(field, Assigning[i])
  }

  /** A day type is assigned twice: by two keywords, or by one when it was already taken. */
  predicate DupOf(c: seq<nat>, already0: seq<bool>)
    requires |c| == ScheduleData.DayTypeNum && |already0| == ScheduleData.DayTypeNum
  {
    exists d :: 0 <= d < ScheduleData.DayTypeNum && (c[d] > 1 || (c[d] > 0 && already0[d]))
  }

  datatype DayTypes = DayTypes(these: seq<bool>, already: seq<bool>, errors: bool)

  /** The outcome of one "For" field on the arrays these0 and already0. */
  function DayTypesAfter(field: string, these0: seq<bool>, already0: seq<bool>): (r: DayTypes)
    requires |these0| == ScheduleData.DayTypeNum && |already0| == ScheduleData.DayTypeNum
    ensures |r.these| == ScheduleData.DayTypeNum && |r.already| == ScheduleData.DayTypeNum
    // nothing is released: taken day types stay taken, this schedule's stay its own
    ensures forall d :: 0 <= d < ScheduleData.DayTypeNum && these0[d] ==> r.these[d]
    ensures forall d :: 0 <= d < ScheduleData.DayTypeNum && already0[d] ==> r.already[d]
    // a day type of this schedule is always recorded as taken
    ensures (forall d :: 0 <= d < ScheduleData.DayTypeNum && these0[d] ==> already0[d]) ==>
              forall d :: 0 <= d < ScheduleData.DayTypeNum && r.these[d] ==> r.already[d]
    // ALLOTHERDAY leaves no day type free
    ensures Mentions(field, KwAllOtherDay) ==> forall d :: 0 <= d < ScheduleData.DayTypeNum ==> r.already[d]
  {
    var c := Counts(field, |Assigning|);
    var other := Mentions(field, KwAllOtherDay);
    DayTypes(
      seq(ScheduleData.DayTypeNum, d requires 0 <= d < ScheduleData.DayTypeNum => these0[d] || c[d] > 0 || (other && !already0[d] && c[d] == 0)),
      seq(ScheduleData.DayTypeNum, d requires 0 <= d < ScheduleData.DayTypeNum => already0[d] || c[d] > 0 || other),
      DupOf(c, already0) || !(AnyAssigning(field, |Assigning|) || other))
  }

  /** The arrays and the duplicate flag once day types with counts c are assigned. */
  predicate MarkedBy(c: seq<nat>, these0: seq<bool>, already0: seq<bool>, these: seq<bool>, already: seq<bool>, dup: bool)
    requires |c| == ScheduleData.DayTypeNum && |these0| == ScheduleData.DayTypeNum && |already0| == ScheduleData.DayTypeNum
    requires |these| == ScheduleData.DayTypeNum && |already| == ScheduleData.DayTypeNum
  {
    (forall d :: 0 <= d < ScheduleData.DayTypeNum ==> these[d] == (these0[d] || c[d] > 0))
    && (forall d :: 0 <= d < ScheduleData.DayTypeNum ==> already[d] == (already0[d] || c[d] > 0))
    && dup == DupOf(c, already0)
  }

  /** The source's `has`. */
  method HasWord(field: string, word: string) returns (found: bool)
    ensures found == Has(field, word)
  {
    var i := 0;
    while i + |word| <= |field|
      invariant 0 <= i
      invariant HasFrom(field, word, i) == Has(field, word)
      decreases |field| - i
    {
      if field[i..i + |word|] == word {
        return true;
      }
      i := i + 1;
    }
    return false;
  }

  /**
   * The block of one assigning keyword: if the field mentions `word`, its day
   * types go into `these` and `already`, and `taken` tells whether any of
   * them was already taken.
   */
  method AssignDays(field: string, word: string, days: seq<int>, these: array<bool>, already: array<bool>)
    returns (mentioned: bool, taken: bool)
    requires forall i :: 0 <= i < |days| ==> 0 <= days[i] < ScheduleData.DayTypeNum
    requires forall p, q :: 0 <= p < q < |days| ==> days[p] != days[q]
    requires these.Length == ScheduleData.DayTypeNum && already.Length == ScheduleData.DayTypeNum && these != already
    modifies these, already
    ensures mentioned == Has(field, word)
    ensures forall d :: 0 <= d < ScheduleData.DayTypeNum ==> these[d] == (old(these[d]) || (mentioned && d in days))
    ensures forall d :: 0 <= d < ScheduleData.DayTypeNum ==> already[d] == (old(already[d]) || (mentioned && d in days))
    ensures taken == (mentioned && exists p :: 0 <= p < |days| && old(already[days[p]]))
  {
    taken := false;
    mentioned := HasWord(field, word);
    if !mentioned {
      return;
    }
    for i := 0 to |days|
      invariant forall d :: 0 <= d < ScheduleData.DayTypeNum ==> these[d] == (old(these[d]) || d in days[..i])
      invariant forall d :: 0 <= d < ScheduleData.DayTypeNum ==> already[d] == (old(already[d]) || d in days[..i])
      invariant taken == exists p :: 0 <= p < i && old(already[days[p]])
    {
      assert days[..i + 1] == days[..i] + [days[i]];
      these[days[i]] := true;
      if already[days[i]] {
        taken := true;
      }
      already[days[i]] := true;
    }
    assert days[..|days|] == days;
  }

  /** One block adds its day types to the counts; the duplicate flag follows. */
  lemma {:induction false} MarkedStep(c: seq<nat>, days: seq<int>, these0: seq<bool>, already0: seq<bool>,
                                      theseA: seq<bool>, alreadyA: seq<bool>, theseB: seq<bool>, alreadyB: seq<bool>,
                                      dup: bool, taken: bool)
    requires |c| == ScheduleData.DayTypeNum && |these0| == ScheduleData.DayTypeNum && |already0| == ScheduleData.DayTypeNum
    requires |theseA| == ScheduleData.DayTypeNum && |alreadyA| == ScheduleData.DayTypeNum && |theseB| == ScheduleData.DayTypeNum && |alreadyB| == ScheduleData.DayTypeNum
    requires forall i :: 0 <= i < |days| ==> 0 <= days[i] < ScheduleData.DayTypeNum
    requires MarkedBy(c, these0, already0, theseA, alreadyA, dup)
    requires forall d :: 0 <= d < ScheduleData.DayTypeNum ==> theseB[d] == (theseA[d] || d in days)
    requires forall d :: 0 <= d < ScheduleData.DayTypeNum ==> alreadyB[d] == (alreadyA[d] || d in days)
    requires taken == exists p :: 0 <= p < |days| && alreadyA[days[p]]
    ensures MarkedBy(AddDays(c, days), these0, already0, theseB, alreadyB, dup || taken)
  {
    var c' := AddDays(c, days);
    if taken {
      var p :| 0 <= p < |days| && alreadyA[days[p]];
      assert c'[days[p]] > 1 || (c'[days[p]] > 0 && already0[days[p]]);
    }
    if dup {
      var d :| 0 <= d < ScheduleData.DayTypeNum && (c[d] > 1 || (c[d] > 0 && already0[d]));
      assert c'[d] > 1 || (c'[d] > 0 && already0[d]);
    }
    if DupOf(c', already0) && !dup {
      var d :| 0 <= d < ScheduleData.DayTypeNum && (c'[d] > 1 || (c'[d] > 0 && already0[d]));
      assert d in days && alreadyA[d];
      var p :| 0 <= p < |days| && days[p] == d;
    }
  }

  /** The block of the j-th assigning keyword. */
  method AssignStep(forDayField: string, j: nat, these: array<bool>, already: array<bool>,
                    ghost these0: seq<bool>, ghost already0: seq<bool>, dup: bool, oneValid: bool)
    returns (dup': bool, oneValid': bool)
    requires j < |Assigning|
    requires these.Length == ScheduleData.DayTypeNum && already.Length == ScheduleData.DayTypeNum && these != already
    requires |these0| == ScheduleData.DayTypeNum && |already0| == ScheduleData.DayTypeNum
    requires MarkedBy(Counts(forDayField, j), these0, already0, these[..], already[..], dup)
    requires oneValid == AnyAssigning(forDayField, j)
    modifies these, already
    ensures MarkedBy(Counts(forDayField, j + 1), these0, already0, these[..], already[..], dup')
    ensures oneValid' == AnyAssigning(forDayField, j + 1)
  {
    ghost var theseA, alreadyA := these[..], already[..];
    var k := Assigning[j];
    var mentioned, taken := AssignDays(forDayField, KeywordText(k), KeywordDays(k), these, already);
    ghost var added := if mentioned then KeywordDays(k) else [];
    MarkedStep(Counts(forDayField, j), added, these0, already0, theseA, alreadyA, these[..], already[..], dup, taken);
    dup', oneValid' := dup || taken, oneValid || mentioned;
    assert oneValid' == AnyAssigning(forDayField, j + 1) by {
      if mentioned {
        assert Mentions(forDayField, Assigning[j]);
      }
    }
  }

  /** The blocks of the assigning keywords, in the source's order. */
  method AssignKeywords(forDayField: string, these: array<bool>, already: array<bool>)
    returns (dup: bool, oneValid: bool)
    requires these.Length == ScheduleData.DayTypeNum && already.Length == ScheduleData.DayTypeNum && these != already
    modifies these, already
    ensures MarkedBy(Counts(forDayField, |Assigning|), old(these[..]), old(already[..]), these[..], already[..], dup)
    ensures oneValid == AnyAssigning(forDayField, |Assigning|)
  {
    ghost var these0, already0 := these[..], already[..];
    dup, oneValid := false, false;
    for j := 0 to |Assigning|
      invariant MarkedBy(Counts(forDayField, j), these0, already0, these[..], already[..], dup)
      invariant oneValid == AnyAssigning(forDayField, j)
    {
      dup, oneValid := AssignStep(forDayField, j, these, already, these0, already0, dup, oneValid);
    }
  }

  /** The ALLOTHERDAY block: every day type not yet taken becomes this schedule's. */
  method TakeOtherDays(these: array<bool>, already: array<bool>)
    requires these.Length == ScheduleData.DayTypeNum && already.Length == ScheduleData.DayTypeNum && these != already
    modifies these, already
    ensures forall d :: 0 <= d < ScheduleData.DayTypeNum ==> these[d] == (old(these[d]) || !old(already[d]))
    ensures forall d :: 0 <= d < ScheduleData.DayTypeNum ==> already[d]
  {
    for iDay := 0 to ScheduleData.DayTypeNum
      invariant forall d :: 0 <= d < ScheduleData.DayTypeNum ==> these[d] == (old(these[d]) || (d < iDay && !old(already[d])))
      invariant forall d :: 0 <= d < ScheduleData.DayTypeNum ==> already[d] == (old(already[d]) || d < iDay)
    {
      if !already[iDay] {
        these[iDay] := true;
        already[iDay] := true;
      }
    }
  }

  /**
   * ProcessForDayTypes: the blocks of the assigning keywords in order, then
   * ALLOTHERDAY, which takes every day type still free.  The result says
   * whether this call found an error (duplicate, or no day type named).
   */
  method ProcessForDayTypes(forDayField: string, these: array<bool>, already: array<bool>)
    returns (errorsFound: bool)
    requires these.Length == ScheduleData.DayTypeNum && already.Length == ScheduleData.DayTypeNum && these != already
    modifies these, already
    ensures DayTypesAfter(forDayField, old(these[..]), old(already[..])) == DayTypes(these[..], already[..], errorsFound)
  {
    ghost var these0, already0 := these[..], already[..];
    var dup, oneValid := AssignKeywords(forDayField, these, already);
    var other := HasWord(forDayField, "ALLOTHERDAY");
    if other {
      TakeOtherDays(these, already);
      oneValid := true;
    }
    errorsFound := dup || !oneValid;
    ghost var r := DayTypesAfter(forDayField, these0, already0);
    assert forall d :: 0 <= d < ScheduleData.DayTypeNum ==> these[..][d] == r.these[d];
    assert forall d :: 0 <= d < ScheduleData.DayTypeNum ==> already[..][d] == r.already[d];
  }
}

/** What a "For" field does to the day types of a week, proved on DayTypesAfter. */
module ScheduleDayTypesFacts {
  import opened ScheduleDayTypes
  import ScheduleData

  /** The i-th assigning keyword is mentioned and gives day type d. */
  predicate Gives(field: string, i: nat, d: int)
    requires i < |Assigning|
  {
    Mentions(field, Assigning[i]) && d in KeywordDays(Assigning[i])
  }

  /** The j-th assigning keyword adds one to day type d exactly when it gives d. */
  lemma CountsStep(field: string, j: nat, d: int)
    requires 0 < j <= |Assigning| && 0 <= d < ScheduleData.DayTypeNum
    ensures Counts(field, j)[d] == Counts(field, j - 1)[d] + if Gives(field, j - 1, d) then 1 else 0
  {
  }

  /** Every mentioned keyword among the first j counts once for each of its day types. */
  lemma {:induction false} CountsAtLeast(field: string, j: nat, i: nat, d: int)
    requires i < j <= |Assigning| && 0 <= d < ScheduleData.DayTypeNum
    requires Gives(field, i, d)
    ensures Counts(field, j)[d] >= 1
  {
    CountsStep(field, j, d);
    if i < j - 1 {
      CountsAtLeast(field, j - 1, i, d);
    }
  }

  /** Two mentioned keywords that give the same day type count it twice. */
  lemma {:induction false} CountsTwice(field: string, j: nat, i1: nat, i2: nat, d: int)
    requires i1 < i2 < j <= |Assigning| && 0 <= d < ScheduleData.DayTypeNum
    requires Gives(field, i1, d) && Gives(field, i2, d)
    ensures Counts(field, j)[d] >= 2
  {
    CountsStep(field, j, d);
    if i2 < j - 1 {
      CountsTwice(field, j - 1, i1, i2, d);
    } else {
      CountsAtLeast(field, j - 1, i1, d);
    }
  }

  /** A day type is counted only when some mentioned keyword gives it. */
  lemma {:induction false} CountsWitness(field: string, j: nat, d: int) returns (i: nat)
    requires j <= |Assigning| && 0 <= d < ScheduleData.DayTypeNum
    requires Counts(field, j)[d] > 0
    ensures i < j && Gives(field, i, d)
  {
    if j == 0 {
      assert false;
    } else if Gives(field, j - 1, d) {
      i := j - 1;
    } else {
      i := CountsWitness(field, j - 1, d);
    }
  }

  /** A field names a day type (or takes the free ones with ALLOTHERDAY) exactly when it becomes this schedule's. */
  lemma NewDayTypes(field: string, these0: seq<bool>, already0: seq<bool>, d: int)
    requires |these0| == ScheduleData.DayTypeNum && |already0| == ScheduleData.DayTypeNum && 0 <= d < ScheduleData.DayTypeNum
    ensures DayTypesAfter(field, these0, already0).these[d] <==>
              these0[d]
              || (exists i :: 0 <= i < |Assigning| && Gives(field, i, d))
              || (Mentions(field, KwAllOtherDay) && !already0[d])
  {
    var c := Counts(field, |Assigning|);
    if c[d] > 0 {
      var i := CountsWitness(field, |Assigning|, d);
    }
    if exists i :: 0 <= i < |Assigning| && Gives(field, i, d) {
      var i :| 0 <= i < |Assigning| && Gives(field, i, d);
      CountsAtLeast(field, |Assigning|, i, d);
    }
  }

  /** Naming a day type an earlier field already took is an error. */
  lemma {:induction false} ReassignmentIsError(field: string, these0: seq<bool>, already0: seq<bool>, i: nat, d: int)
    requires |these0| == ScheduleData.DayTypeNum && |already0| == ScheduleData.DayTypeNum
    requires i < |Assigning| && 0 <= d < ScheduleData.DayTypeNum
    requires Gives(field, i, d) && already0[d]
    ensures DayTypesAfter(field, these0, already0).errors
  {
    CountsAtLeast(field, |Assigning|, i, d);
  }

  /** Two keywords of one field that give the same day type are an error. */
  lemma {:induction false} OverlapIsError(field: string, these0: seq<bool>, already0: seq<bool>, i1: nat, i2: nat, d: int)
    requires |these0| == ScheduleData.DayTypeNum && |already0| == ScheduleData.DayTypeNum
    requires i1 < i2 < |Assigning| && 0 <= d < ScheduleData.DayTypeNum
    requires Gives(field, i1, d) && Gives(field, i2, d)
    ensures DayTypesAfter(field, these0, already0).errors
  {
    CountsTwice(field, |Assigning|, i1, i2, d);
  }

  /** A field that names no day type is an error and changes nothing. */
  lemma {:induction false} NoDayTypeIsError(field: string, these0: seq<bool>, already0: seq<bool>)
    requires |these0| == ScheduleData.DayTypeNum && |already0| == ScheduleData.DayTypeNum
    requires forall i :: 0 <= i < |Assigning| ==> !Mentions(field, Assigning[i])
    requires !Mentions(field, KwAllOtherDay)
    ensures var r := DayTypesAfter(field, these0, already0);
            r.errors && r.these == these0 && r.already == already0
  {
    var c := Counts(field, |Assigning|);
    forall d | 0 <= d < ScheduleData.DayTypeNum
      ensures c[d] == 0
    {
      if c[d] > 0 {
        var i := CountsWitness(field, |Assigning|, d);
      }
    }
  }

  /** Without an error, no day type an earlier field took is given to this schedule. */
  lemma {:induction false} AcceptedTakesOnlyFree(field: string, these0: seq<bool>, already0: seq<bool>, d: int)
    requires |these0| == ScheduleData.DayTypeNum && |already0| == ScheduleData.DayTypeNum && 0 <= d < ScheduleData.DayTypeNum
    requires !DayTypesAfter(field, these0, already0).errors
    requires already0[d]
    ensures DayTypesAfter(field, these0, already0).these[d] == these0[d]
  {
    var c := Counts(field, |Assigning|);
    assert !DupOf(c, already0);
  }
}
