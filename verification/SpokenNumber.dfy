/** Chinese numerals: the speller of the speech normalizer, and a strict reader of numerals
    that it is proved against. */
module SpokenNumber {
  import opened Basics
  import opened Text

  const DIGITS := "零一二三四五六七八九"
  const SMALL_UNITS := "十百千"
  const BIG_UNITS := "万亿兆"

  // ---- the reader

  /** What has been read. Groups have four places; place or group number four stands for
      none. */
  datatype Reading =
    | Reading(
        total: nat, group: nat,      // the complete groups, and the number of the last one
        section: nat, place: nat,    // the group being read, and the place of its last digit
        lead: nat, ahead: bool,      // the place of its first digit, and whether 零 stood before it
        digit: nat, zero: bool)      // a digit whose place is still open, and whether 零 was just read
    | Wrong

  const START := Reading(0, 4, 0, 4, 4, false, 0, false)

  function DigitOf(c: char): nat {
    if c == '一' then 1 else if c == '二' then 2 else if c == '三' then 3
    else if c == '四' then 4 else if c == '五' then 5 else if c == '六' then 6
    else if c == '七' then 7 else if c == '八' then 8 else if c == '九' then 9 else 0
  }

  function SmallPlace(c: char): (place: nat)
    ensures place <= 3
  {
    if c == '十' then 1 else if c == '百' then 2 else if c == '千' then 3 else 0
  }

  function BigGroup(c: char): (group: nat)
    ensures group <= 3
  {
    if c == '万' then 1 else if c == '亿' then 2 else if c == '兆' then 3 else 0
  }

  function PlaceValue(place: nat): nat
    requires place <= 3
  {
    if place == 0 then 1 else if place == 1 then 10 else if place == 2 then 100 else 1000
  }

  /** A product under a name of its own: equal factors make equal products. */
  function Times(a: nat, b: nat): nat {
    a * b
  }

  /** A digit goes to a place below the last one. In between, 零 stands for skipped places,
      and only for them. */
  function Placed(r: Reading, digit: nat, place: nat): Reading
    requires r.Reading? && place <= 3
  {
    if r.place <= place || (r.place < 4 && r.zero != (place + 1 < r.place)) then Wrong
    else if r.place == 4 then
      r.(section := digit * PlaceValue(place), place := place, lead := place, ahead := r.zero, digit := 0, zero := false)
    else
      r.(section := r.section + digit * PlaceValue(place), place := place, digit := 0, zero := false)
  }

  /** A digit without a unit is in the lowest place. */
  function Settled(r: Reading): Reading {
    if r.Reading? && r.digit > 0 then Placed(r, r.digit, 0) else r
  }

  /** A group ends below the last one. It begins with 零 exactly when there is one above and
      a whole group or its own highest place is skipped. */
  function Closed(r: Reading, k: nat): Reading {
    if r.Wrong? || r.place >= 4 || r.zero || r.group <= k
       || r.ahead != (r.group < 4 && (k + 1 < r.group || r.lead < 3)) then Wrong
    else Reading(r.total + Times(r.section, Myriad(k)), k, 0, 4, 4, false, 0, false)
  }

  /** A unit follows its digit, but 十 stands alone for 一十 at the beginning of a group. */
  function ReadUnit(r: Reading, place: nat): Reading
    requires r.Reading? && 1 <= place <= 3
  {
    if r.digit == 0 then (if place == 1 && r.place == 4 then Placed(r, 1, 1) else Wrong)
    else if r.digit == 1 && place == 1 && r.place == 4 then Wrong
    else Placed(r, r.digit, place)
  }

  function ReadChar(r: Reading, c: char): Reading {
    if r.Wrong? then Wrong
    else if BigGroup(c) > 0 then Closed(Settled(r), BigGroup(c))
    else if SmallPlace(c) > 0 then ReadUnit(r, SmallPlace(c))
    else if DigitOf(c) > 0 then (if r.digit > 0 then Wrong else r.(digit := DigitOf(c)))
    else if c == '零' && !r.zero && r.digit == 0 && (r.place < 4 || r.group < 4) then r.(zero := true)
    else Wrong
  }

  function ReadFrom(s: string, r: Reading): Reading {
    if s == "" then r else ReadChar(ReadFrom(s[..|s| - 1], r), s[|s| - 1])
  }

  /** The number a numeral names, if it is spoken as it should be. */
  function Read(s: string): Option<nat> {
    var r := Settled(ReadFrom(s, START));
    if r.Reading? && r.place == 4 then (if r.group < 4 && !r.zero then Some(r.total) else None)
    else if Closed(r, 0).Reading? then Some(Closed(r, 0).total)
    else None
  }

  lemma {:induction false} ReadConcat(a: string, b: string, r: Reading)
    ensures ReadFrom(a + b, r) == ReadFrom(b, ReadFrom(a, r))
  {
    if b == "" {
      assert a + b == a;
    } else {
      assert (a + b)[..|a + b| - 1] == a + b[..|b| - 1];
      ReadConcat(a, b[..|b| - 1], r);
    }
  }

  lemma ReadOne(c: char, r: Reading)
    ensures ReadFrom([c], r) == ReadChar(r, c)
  {
    assert [c][..0] == "";
  }

  /** A number that reads does not end with 零. */
  lemma NoZeroAtEnd(s: string)
    requires s != "" && Read(s).Some?
    ensures s[|s| - 1] != '零'
  {
  }

  lemma ReadLast(s: string, last: char, r: Reading)
    requires ReadFrom(s, START) == r
    ensures ReadFrom(s + [last], START) == ReadChar(r, last)
  {
    assert (s + [last])[..|s|] == s;
  }

  ghost const HUNDRED := Reading(0, 4, 100, 2, 2, false, 0, false)

  lemma OneRead()
    ensures ReadFrom("一", START) == START.(digit := 1)
  {
    ReadLast("", '一', START);
    assert "" + ['一'] == "一";
  }

  lemma HundredRead()
    ensures ReadFrom("一百", START) == HUNDRED
  {
    OneRead();
    assert ReadChar(START.(digit := 1), '百') == HUNDRED;
    ReadLast("一", '百', START.(digit := 1));
    assert "一" + ['百'] == "一百";
  }

  /** 105 needs its 零; without it, the five has no place unless it gets a unit. */
  lemma ZeroIsNeeded()
    ensures Read("一百零五") == Some(105) && Read("一百五") == None && Read("一百五十") == Some(150)
  {
    HundredRead();
    assert Myriad(0) == 1;
    assert Read("一百零五") == Some(105) by {
      ReadLast("一百", '零', HUNDRED);
      assert "一百" + ['零'] == "一百零";
      ReadLast("一百零", '五', HUNDRED.(zero := true));
      assert "一百零" + ['五'] == "一百零五";
    }
    FiveBehindHundred();
  }

  lemma FiveBehindHundred()
    ensures Read("一百五") == None && Read("一百五十") == Some(150)
  {
    HundredRead();
    ReadLast("一百", '五', HUNDRED);
    assert "一百" + ['五'] == "一百五";
    ReadLast("一百五", '十', HUNDRED.(digit := 5));
    assert "一百五" + ['十'] == "一百五十";
    assert Myriad(0) == 1;
  }

  /** Fifteen begins with a bare unit. */
  lemma BareTenLeads()
    ensures Read("十五") == Some(15) && Read("一十五") == None
  {
    ReadLast("", '十', START);
    assert "" + ['十'] == "十";
    ReadLast("十", '五', Reading(0, 4, 10, 1, 1, false, 0, false));
    assert "十" + ['五'] == "十五";
    ReadLast("", '一', START);
    assert "" + ['一'] == "一";
    ReadLast("一", '十', START.(digit := 1));
    assert "一" + ['十'] == "一十";
    ReadLast("一十", '五', Wrong);
    assert "一十" + ['五'] == "一十五";
    assert Myriad(0) == 1;
  }

  // ---- four places

  lemma DigitRead(d: nat)
    requires 1 <= d < 10
    ensures var c := DIGITS[d]; DigitOf(c) == d && SmallPlace(c) == 0 && BigGroup(c) == 0
  {
    assert DIGITS[1] == '一' && DIGITS[2] == '二' && DIGITS[3] == '三' && DIGITS[4] == '四' && DIGITS[5] == '五';
    assert DIGITS[6] == '六' && DIGITS[7] == '七' && DIGITS[8] == '八' && DIGITS[9] == '九';
  }

  lemma UnitRead(place: nat)
    requires 1 <= place <= 3
    ensures SmallPlace(SMALL_UNITS[place - 1]) == place && BigGroup(SMALL_UNITS[place - 1]) == 0
  {
    assert SMALL_UNITS[0] == '十' && SMALL_UNITS[1] == '百' && SMALL_UNITS[2] == '千';
  }

  /** One digit with its unit; a leading one before 十 is not spoken. */
  function Place(digit: nat, place: nat, first: bool): string
    requires 1 <= digit < 10 && place <= 3
  {
    if digit == 1 && place == 1 && first then "十"
    else [DIGITS[digit]] + (if place == 0 then "" else [SMALL_UNITS[place - 1]])
  }

  lemma PlaceRead(digit: nat, place: nat, r: Reading)
    requires 1 <= digit < 10 && place <= 3 && r.Reading? && r.digit == 0
    ensures var r' := ReadFrom(Place(digit, place, r.place == 4), r);
            Settled(r') == Placed(r, digit, place) && (place > 0 ==> r' == Placed(r, digit, place))
  {
    DigitRead(digit);
    if digit == 1 && place == 1 && r.place == 4 {
      ReadOne('十', r);
    } else {
      ReadOne(DIGITS[digit], r);
      if place > 0 {
        UnitRead(place);
        ReadConcat([DIGITS[digit]], [SMALL_UNITS[place - 1]], r);
        ReadOne(SMALL_UNITS[place - 1], ReadChar(r, DIGITS[digit]));
      }
    }
  }

  function DigitAt(chunk: nat, place: nat): (d: nat)
    requires place <= 3
    ensures d < 10
  {
    if place == 0 then chunk % 10 else if place == 1 then chunk / 10 % 10
    else if place == 2 then chunk / 10 / 10 % 10 else chunk / 10 / 10 / 10 % 10
  }

  /** What the places from the given one upwards are worth. */
  function Upper(chunk: nat, place: nat): nat {
    if place == 0 then chunk else if place == 1 then chunk / 10 * 10
    else if place == 2 then chunk / 10 / 10 * 100 else if place == 3 then chunk / 10 / 10 / 10 * 1000
    else chunk / 10 / 10 / 10 / 10 * 10000
  }

  lemma UpperStep(chunk: nat, place: nat)
    requires place <= 3
    ensures Upper(chunk, place) == Upper(chunk, place + 1) + DigitAt(chunk, place) * PlaceValue(place)
    ensures DigitAt(chunk, place) * PlaceValue(place) >= DigitAt(chunk, place)
  {
    var x := if place == 0 then chunk else if place == 1 then chunk / 10 else if place == 2 then chunk / 10 / 10 else chunk / 10 / 10 / 10;
    assert x == x / 10 * 10 + x % 10;
  }

  /** The lowest and the highest place with a digit, from the given one upwards. */
  function Low(chunk: nat, place: nat): (low: nat)
    requires place <= 4
    ensures place <= low <= 4
    decreases 4 - place
  {
    if place == 4 || DigitAt(chunk, place) > 0 then place else Low(chunk, place + 1)
  }

  function High(chunk: nat, place: nat): (high: nat)
    requires place <= 4
    ensures place <= high <= 4
    decreases 4 - place
  {
    if place == 4 || High(chunk, place + 1) < 4 then (if place == 4 then 4 else High(chunk, place + 1))
    else if DigitAt(chunk, place) > 0 then place else 4
  }

  /** The reading after the places of a group from the given one upwards. */
  ghost function Partly(start: Reading, chunk: nat, place: nat): Reading
    requires start.Reading? && place <= 4
  {
    if Low(chunk, place) == 4 then start
    else start.(section := Upper(chunk, place), place := Low(chunk, place), lead := High(chunk, place), ahead := start.zero, zero := false)
  }

  ghost predicate AtStart(start: Reading) {
    start.Reading? && start.section == 0 && start.place == 4 && start.digit == 0
  }

  lemma PartlyStep(start: Reading, chunk: nat, place: nat)
    requires AtStart(start) && chunk < 10000 && place <= 3
    ensures DigitAt(chunk, place) == 0 ==> Partly(start, chunk, place) == Partly(start, chunk, place + 1)
    ensures DigitAt(chunk, place) > 0 ==>
              var r := Partly(start, chunk, place + 1);
              Placed(if r.place < 4 && place + 1 < r.place then r.(zero := true) else r, DigitAt(chunk, place), place)
              == Partly(start, chunk, place)
  {
    UpperStep(chunk, place);
    NothingAbove(chunk, place + 1);
  }

  lemma {:induction false} NothingAbove(chunk: nat, place: nat)
    requires place <= 4 && chunk < 10000
    ensures Low(chunk, place) == 4 ==> Upper(chunk, place) == 0 && High(chunk, place) == 4
    ensures Low(chunk, place) < 4 ==> Upper(chunk, place) > 0 && High(chunk, place) < 4
    decreases 4 - place
  {
    if place < 4 {
      NothingAbove(chunk, place + 1);
      UpperStep(chunk, place);
    }
  }

  /** The places from the given one upwards are spoken; the lowest digit may still be open. */
  ghost predicate PartsSpoken(parts: string, start: Reading, chunk: nat, place: nat)
    requires AtStart(start) && place <= 4
  {
    && (parts == "" <==> Low(chunk, place) == 4)
    && Settled(ReadFrom(parts, start)) == Partly(start, chunk, place)
    && (place > 0 ==> ReadFrom(parts, start) == Partly(start, chunk, place))
  }

  method SpeakDigit(parts: string, chunk: nat, place: nat, zeroPending: bool, ghost start: Reading) returns (extended: string)
    requires AtStart(start) && chunk < 10000 && place <= 3 && DigitAt(chunk, place) > 0
    requires PartsSpoken(parts, start, chunk, place + 1)
    requires zeroPending <==> place + 1 < Low(chunk, place + 1) < 4
    ensures PartsSpoken(extended, start, chunk, place)
  {
    var digit := DigitAt(chunk, place);
    var spoken := Place(digit, place, parts == "");
    ghost var r := Partly(start, chunk, place + 1);
    PartlyStep(start, chunk, place);
    extended := parts;
    if zeroPending {
      ReadConcat(parts, "零", start);
      ReadOne('零', r);
      extended := extended + "零";
      r := r.(zero := true);
    }
    PlaceRead(digit, place, r);
    ReadConcat(extended, spoken, start);
    extended := extended + spoken;
  }

  /** The loop over the four digits of a group, read from any reading before it. */
  method ConvertFour(chunk: nat, ghost start: Reading) returns (parts: string)
    requires AtStart(start) && 0 < chunk < 10000
    ensures parts != "" && Settled(ReadFrom(parts, start)) == Partly(start, chunk, 0)
  {
    parts := "";
    var zeroPending := false;
    NothingAbove(chunk, 0);
    for place := 4 downto 0
      invariant PartsSpoken(parts, start, chunk, place)
      invariant zeroPending <==> place < Low(chunk, place) < 4
    {
      PartlyStep(start, chunk, place);
      if DigitAt(chunk, place) == 0 {
        if parts != "" {
          zeroPending := true;
        }
        continue;
      }
      parts := SpeakDigit(parts, chunk, place, zeroPending, start);
      zeroPending := false;
    }
  }

  // ---- groups of four places

  function Myriad(k: nat): nat {
    if k == 0 then 1 else 10000 * Myriad(k - 1)
  }

  /** Groups of four digits, lowest first. */
  function Value(groups: seq<nat>): nat {
    if groups == [] then 0
    else Value(groups[..|groups| - 1]) + Times(groups[|groups| - 1], Myriad(|groups| - 1))
  }

  ghost predicate IsGroups(groups: seq<nat>) {
    forall i | 0 <= i < |groups| :: groups[i] < 10000
  }

  lemma {:induction false} ValueBelow(groups: seq<nat>)
    requires IsGroups(groups)
    ensures Value(groups) < Myriad(|groups|)
    ensures groups != [] && groups[|groups| - 1] > 0 ==> Value(groups) >= Myriad(|groups| - 1)
  {
    if groups != [] {
      var n, m := |groups| - 1, Myriad(|groups| - 1);
      ValueBelow(groups[..n]);
      Products(m, groups[n]);
    }
  }

  lemma Products(m: nat, digit: nat)
    requires digit < 10000
    ensures digit * m <= 9999 * m && (digit > 0 ==> digit * m >= m)
  {
  }

  lemma {:induction false} MyriadGrows(j: nat, k: nat)
    requires j <= k
    ensures Myriad(j) <= Myriad(k)
  {
    if j < k {
      MyriadGrows(j, k - 1);
    }
  }

  lemma MyriadStep(k: nat, quotient: nat, number: nat)
    requires number == quotient * 10000 + number % 10000
    ensures number * Myriad(k) == number % 10000 * Myriad(k) + quotient * Myriad(k + 1)
  {
    var m := Myriad(k);
    assert Myriad(k + 1) == 10000 * m;
    assert (quotient * 10000 + number % 10000) * m == (quotient * 10000) * m + number % 10000 * m;
    assert (quotient * 10000) * m == quotient * (10000 * m);
  }

  /** The groups of a number, lowest first, without leading zero groups. */
  method Groups(n: nat) returns (groups: seq<nat>)
    ensures IsGroups(groups) && Value(groups) == n
    ensures groups != [] ==> groups[|groups| - 1] > 0
  {
    groups := [];
    var number: nat := n;
    ghost var rest: int := n;
    assert n * Myriad(0) == n;
    while number > 0
      invariant IsGroups(groups) && n == Value(groups) + rest && rest == number * Myriad(|groups|)
      invariant number == 0 && groups != [] ==> groups[|groups| - 1] > 0
    {
      MyriadStep(|groups|, number / 10000, number);
      rest := number / 10000 * Myriad(|groups| + 1);
      ValueAppend(groups, number % 10000);
      groups := groups + [number % 10000];
      number := number / 10000;
    }
    assert rest == 0 * Myriad(|groups|);
  }

  lemma ValueAppend(groups: seq<nat>, g: nat)
    ensures Value(groups + [g]) == Value(groups) + Times(g, Myriad(|groups|))
  {
    assert (groups + [g])[..|groups|] == groups;
  }

  /** What the groups from k upwards are worth. */
  function Upwards(groups: seq<nat>, k: nat): int
    requires k <= |groups|
  {
    Value(groups) - Value(groups[..k])
  }

  lemma UpwardsStep(groups: seq<nat>, k: nat)
    requires k < |groups|
    ensures Upwards(groups, k) == Times(groups[k], Myriad(k)) + Upwards(groups, k + 1)
    ensures Upwards(groups, 0) == Value(groups) && Upwards(groups, |groups|) == 0
  {
    assert groups[..k + 1][..k] == groups[..k] && groups[..|groups|] == groups;
  }

  lemma {:induction false} UpwardsPositive(groups: seq<nat>, k: nat)
    requires k <= |groups|
    ensures Upwards(groups, k) >= 0
    decreases |groups| - k
  {
    if k == |groups| {
      assert groups[..k] == groups;
    } else {
      UpwardsPositive(groups, k + 1);
      UpwardsStep(groups, k);
    }
  }

  /** The lowest group from k upwards that is not zero. */
  function LowGroup(groups: seq<nat>, k: nat): (low: nat)
    requires k <= |groups| <= 4
    ensures k <= low <= 4 && (low < 4 ==> low < |groups|)
    decreases |groups| - k
  {
    if k == |groups| then 4 else if groups[k] > 0 then k else LowGroup(groups, k + 1)
  }

  /** What has been read of the groups from k upwards. */
  ghost function GroupsRead(groups: seq<nat>, k: nat, zero: bool): Reading
    requires k <= |groups| <= 4 && Upwards(groups, k) >= 0
  {
    Reading(Upwards(groups, k), LowGroup(groups, k), 0, 4, 4, false, 0, zero)
  }

  /** What has been spoken of the groups from k upwards. */
  ghost predicate Spoken(result: string, groups: seq<nat>, k: nat)
    requires k <= |groups| <= 4
  {
    && Upwards(groups, k) >= 0
    && (result == "" <==> LowGroup(groups, k) == 4)
    && (k > 0 ==> ReadFrom(result, START) == GroupsRead(groups, k, false))
    && (k == 0 ==> Read(result) == Some(Upwards(groups, 0)))
  }

  lemma LeadOfGroup(chunk: nat)
    requires 0 < chunk < 10000
    ensures High(chunk, 0) < 3 <==> chunk < 1000
    ensures Low(chunk, 0) < 4 && High(chunk, 0) < 4
  {
    NothingAbove(chunk, 0);
  }

  /** A group that is spoken behind the groups above, with 零 where it belongs, is closed by
      its unit. */
  lemma GroupCloses(groups: seq<nat>, k: nat, zero: bool)
    requires k < |groups| <= 4 && IsGroups(groups) && groups[k] > 0
    requires Upwards(groups, k + 1) >= 0 && Upwards(groups, k) >= 0
    requires zero <==> LowGroup(groups, k + 1) < 4 && (k + 1 < LowGroup(groups, k + 1) || groups[k] < 1000)
    ensures var r := Partly(GroupsRead(groups, k + 1, zero), groups[k], 0);
            Closed(r, k) == GroupsRead(groups, k, false)
  {
    LeadOfGroup(groups[k]);
    UpwardsStep(groups, k);
  }

  /** The unit of the lowest group is empty. */
  function UnitText(k: nat): string
    requires k <= 3
  {
    if k == 0 then "" else [BIG_UNITS[k - 1]]
  }

  lemma UnitCloses(text: string, k: nat, r: Reading)
    requires k <= 3 && Settled(ReadFrom(text, START)) == r && r.Reading? && r.place < 4
    ensures k > 0 ==> ReadFrom(text + UnitText(k), START) == Closed(r, k)
    ensures k == 0 && Closed(r, 0).Reading? ==> Read(text + UnitText(0)) == Some(Closed(r, 0).total)
  {
    if k == 0 {
      assert text + "" == text;
    } else {
      assert BIG_UNITS[0] == '万' && BIG_UNITS[1] == '亿' && BIG_UNITS[2] == '兆';
      ReadConcat(text, UnitText(k), START);
      ReadOne(BIG_UNITS[k - 1], ReadFrom(text, START));
    }
  }

  lemma ZeroRead(text: string, r: Reading)
    requires ReadFrom(text, START) == r && AtStart(r) && r.group < 4 && !r.zero
    ensures ReadFrom(text + "零", START) == r.(zero := true)
  {
    ReadConcat(text, "零", START);
    ReadOne('零', r);
  }

  /** What the text of a group and its unit add to what is spoken. */
  lemma GroupSpoken(text: string, group: string, groups: seq<nat>, k: nat, zero: bool)
    requires k < |groups| <= 4 && IsGroups(groups) && groups[k] > 0
    requires Upwards(groups, k + 1) >= 0 && Upwards(groups, k) >= 0
    requires zero <==> LowGroup(groups, k + 1) < 4 && (k + 1 < LowGroup(groups, k + 1) || groups[k] < 1000)
    requires ReadFrom(text, START) == GroupsRead(groups, k + 1, zero) && group != ""
    requires Settled(ReadFrom(group, ReadFrom(text, START))) == Partly(ReadFrom(text, START), groups[k], 0)
    ensures Spoken(text + group + UnitText(k), groups, k)
  {
    ReadConcat(text, group, START);
    GroupCloses(groups, k, zero);
    LeadOfGroup(groups[k]);
    UnitCloses(text + group, k, Partly(ReadFrom(text, START), groups[k], 0));
  }

  /** One group with its unit, behind a 零 when places were skipped. */
  method SpeakGroup(result: string, groups: seq<nat>, k: nat, zeroBetween: bool) returns (extended: string)
    requires k < |groups| <= 4 && IsGroups(groups) && groups[k] > 0
    requires Spoken(result, groups, k + 1)
    requires zeroBetween <==> k + 1 < LowGroup(groups, k + 1) < 4
    ensures Spoken(extended, groups, k)
  {
    UpwardsPositive(groups, k);
    extended := result;
    ghost var zero := result != "" && (zeroBetween || groups[k] < 1000);
    if result != "" && (zeroBetween || groups[k] < 1000) {
      ZeroRead(result, GroupsRead(groups, k + 1, false));
      extended := extended + "零";
    }
    var group := ConvertFour(groups[k], ReadFrom(extended, START));
    GroupSpoken(extended, group, groups, k, zero);
    extended := extended + group + UnitText(k);
  }

  /** Four groups are enough exactly below ten to the sixteenth. */
  lemma FourGroups(groups: seq<nat>)
    requires IsGroups(groups) && groups != [] && groups[|groups| - 1] > 0
    ensures |groups| > 4 <==> Value(groups) >= 1_0000_0000_0000_0000
  {
    ValueBelow(groups);
    assert Myriad(0) == 1 && Myriad(1) == 10000 && Myriad(2) == 10000 * Myriad(1);
    assert Myriad(3) == 10000 * Myriad(2) && Myriad(4) == 10000 * Myriad(3);
    if |groups| > 4 {
      MyriadGrows(4, |groups| - 1);
    } else {
      MyriadGrows(|groups|, 4);
    }
  }

  /** The loop over the groups, highest first. */
  method SpeakGroups(groups: seq<nat>) returns (result: string)
    requires IsGroups(groups) && 1 <= |groups| <= 4 && groups[|groups| - 1] > 0
    ensures result != "" && Read(result) == Some(Value(groups))
  {
    result := "";
    var zeroBetween := false;
    UpwardsStep(groups, 0);
    for k := |groups| downto 0
      invariant Spoken(result, groups, k)
      invariant zeroBetween <==> k < LowGroup(groups, k) < 4
      invariant k < |groups| ==> result != ""
    {
      if groups[k] == 0 {
        zeroBetween := result != "";
        UpwardsStep(groups, k);
        if k == 0 {
          assert result != "";
        }
        continue;
      }
      result := SpeakGroup(result, groups, k, zeroBetween);
      zeroBetween := false;
    }
  }

  method SpellPositive(value: nat) returns (r: Option<string>)
    requires value > 0
    ensures r.None? <==> value >= 1_0000_0000_0000_0000
    ensures r.Some? ==> Read(r.value) == Some(value)
  {
    var groups := Groups(value);
    assert groups != [];
    FourGroups(groups);
    if |groups| > 4 {
      return None;
    }
    var result := SpeakGroups(groups);
    NoZeroAtEnd(result);
    r := Some(TrimRight(result, (c: char) => c == '零'));
  }

  /** Spells a number. The strict reader gives the number back, so that every 零 and every
      unit is where it belongs; and the units run out exactly at ten to the sixteenth. */
  method Spell(value: int) returns (r: Option<string>)
    ensures r.None? <==> value >= 1_0000_0000_0000_0000
    ensures 0 < value && r.Some? ==> Read(r.value) == Some(value)
    ensures value == 0 ==> r == Some("零")
    ensures value < 0 ==> r == Some("")
  {
    if value == 0 {
      r := Some("零");
    } else if value < 0 {
      r := Some("");
    } else {
      r := SpellPositive(value);
    }
  }
}
