/** Every form of a curve item: `TEMP[f|c]: VALUE[%|PWM]`, a value being an RPM, a percentage or a PWM. */
module CurveText {
  import opened Basics
  import opened Tables
  import opened Decimal
  import opened Regex
  import opened MapText
  import Lookup

  predicate Fahrenheit(unit: string) {
    unit == "f" || unit == "F"
  }

  predicate Unit(unit: string) {
    unit == "" || Fahrenheit(unit) || unit == "c" || unit == "C"
  }

  predicate Suffix(suffix: string) {
    suffix == "" || suffix == "%" || suffix == "PWM"
  }

  /** The white space in an item: before and after the unit, after the colon, and before the suffix. */
  datatype Gaps = Gaps(number: string, unit: string, colon: string, suffix: string)

  const PRINTED := Gaps("", "", " ", "")

  /** Space, tab, line feed, vertical tab, form feed and carriage return. */
  predicate Blank(w: string) {
    forall i :: 0 <= i < |w| ==>
      w[i] == ' ' || w[i] == '\t' || w[i] == '\n' || w[i] as int == 11 || w[i] as int == 12 || w[i] == '\r'
  }

  predicate Blanks(g: Gaps, unit: string) {
    Blank(g.number) && Blank(g.unit) && Blank(g.colon) && Blank(g.suffix) && (unit == "" ==> g.unit == "")
  }

  function SpacedItem(temp: nat, unit: string, value: nat, suffix: string, g: Gaps): string {
    PrintNat(temp) + g.number + unit + g.unit + ":" + g.colon + PrintNat(value) + g.suffix + suffix
  }

  function CurveItem(temp: nat, unit: string, value: nat, suffix: string): string {
    PrintNat(temp) + unit + ": " + PrintNat(value) + suffix
  }

  /** The substrings captured for the two suffixes, and for the two units. */
  function SuffixSegs(suffix: string): (segs: seq<string>)
    ensures |segs| == 2
  {
    [if suffix == "%" then "%" else "", if suffix == "PWM" then "PWM" else ""]
  }

  function UnitSegs(unit: string): (segs: seq<string>)
    ensures |segs| == 2
  {
    if Fahrenheit(unit) then [unit, ""] else ["", unit]
  }

  /** All substrings captured for an item. */
  function ItemSegs(temp: nat, unit: string, value: nat, suffix: string, g: Gaps): (segs: seq<string>)
    ensures |segs| == 11
  {
    [PrintNat(temp), g.number] + UnitSegs(unit) + [g.unit, ":", g.colon, PrintNat(value), g.suffix] + SuffixSegs(suffix)
  }

  lemma {:induction false} MatchWord(suffix: string, rest: string)
    requires Follows(rest) && (suffix == "" || suffix == "PWM")
    ensures Match([MapText.PWM], suffix + rest) == Some([suffix]) && Length([suffix]) == |suffix|
  {
    if suffix == "" {
      assert suffix + rest == rest;
      NoWord(rest);
    } else {
      assert "PWM" <= "PWM" + rest && ("PWM" + rest)[3..] == rest;
      assert [MapText.PWM][1..] == [] && ["PWM"][1..] == [] && ["PWM"] + [] == ["PWM"];
      Nothing(rest);
    }
  }

  lemma {:induction false} MatchSuffix(gap: string, suffix: string, rest: string)
    requires Follows(rest) && Suffix(suffix) && AllIn(Spaces, gap)
    ensures Match([GAP, PERCENT, MapText.PWM], gap + (suffix + rest)) == Some([gap] + SuffixSegs(suffix))
    ensures Length([gap] + SuffixSegs(suffix)) == |gap| + |suffix|
  {
    hide Match, Length;
    var word := [MapText.PWM];
    if suffix == "%" {
      MatchWord("", rest);
      assert "" + rest == rest;
      Front(PERCENT, word, [PERCENT] + word, "%", rest, [""], ["%", ""]);
    } else {
      MatchWord(suffix, rest);
      Skip(PERCENT, word, [PERCENT] + word, suffix + rest, [suffix], ["", suffix]);
    }
    assert [GAP] + ([PERCENT] + word) == [GAP, PERCENT, MapText.PWM];
    Front(GAP, [PERCENT] + word, [GAP, PERCENT, MapText.PWM], gap, suffix + rest, SuffixSegs(suffix),
      [gap] + SuffixSegs(suffix));
  }

  lemma {:induction false} MatchValue(colon: string, b: string, gap: string, suffix: string, rest: string)
    requires b != "" && AllDigits(b) && Follows(rest) && Suffix(suffix) && AllIn(Spaces, colon) && AllIn(Spaces, gap)
    ensures Match(VALUE, ":" + (colon + (b + (gap + (suffix + rest))))) ==
            Some([":", colon, b, gap] + SuffixSegs(suffix))
    ensures Length([":", colon, b, gap] + SuffixSegs(suffix)) == 1 + |colon| + |b| + |gap| + |suffix|
  {
    hide Match, Length;
    MatchSuffix(gap, suffix, rest);
    var tail := [GAP, PERCENT, MapText.PWM];
    var end := [gap] + SuffixSegs(suffix);
    var s := gap + (suffix + rest);
    assert s != "" ==> !IsDigit(s[0]);
    Front(NUMBER, tail, [NUMBER] + tail, b, s, end, [b] + end);
    Front(GAP, [NUMBER] + tail, [GAP, NUMBER] + tail, colon, b + s, [b] + end, [colon, b] + end);
    Front(COLON, [GAP, NUMBER] + tail, VALUE, ":", colon + (b + s), [colon, b] + end, [":", colon, b] + end);
    assert [":", colon, b] + end == [":", colon, b, gap] + SuffixSegs(suffix);
  }

  lemma {:induction false} MatchUnit(gap: string, unit: string, after: string, s: string, v: seq<string>)
    requires Unit(unit) && s != "" && s[0] == ':' && Match(VALUE, s) == Some(v)
    requires AllIn(Spaces, gap) && AllIn(Spaces, after) && (unit == "" ==> after == "")
    ensures Match(UNITS, gap + (unit + (after + s))) == Some([gap] + UnitSegs(unit) + [after] + v)
    ensures Length([gap] + UnitSegs(unit) + [after] + v) == |gap| + |unit| + |after| + Length(v)
  {
    hide Match, Length;
    var celsius := [CELSIUS, GAP] + VALUE;
    var units := UnitSegs(unit);
    var t := after + s;
    Front(GAP, VALUE, [GAP] + VALUE, after, s, v, [after] + v);
    if Fahrenheit(unit) || unit == "" {
      Skip(CELSIUS, [GAP] + VALUE, celsius, t, [after] + v, ["", after] + v);
    } else {
      Front(CELSIUS, [GAP] + VALUE, celsius, unit, t, [after] + v, [unit, after] + v);
    }
    var next := [units[1], after] + v;
    if Fahrenheit(unit) {
      Front(FAHRENHEIT, celsius, [FAHRENHEIT] + celsius, unit, t, next, [unit] + next);
    } else {
      assert unit == "" ==> unit + t == t;
      Skip(FAHRENHEIT, celsius, [FAHRENHEIT] + celsius, unit + t, next, [""] + next);
    }
    Front(GAP, [FAHRENHEIT] + celsius, UNITS, gap, unit + t, [units[0]] + next, [gap, units[0]] + next);
    assert [gap, units[0]] + next == [gap] + units + [after] + v;
  }

  /** What the matcher reads, from its parts. */
  function Parts(a: string, unit: string, b: string, suffix: string, g: Gaps, rest: string): string {
    a + (g.number + (unit + (g.unit + (":" + (g.colon + (b + (g.suffix + (suffix + rest))))))))
  }

  /** No digit follows a number in an item. */
  lemma {:induction false} AfterNumber(gap: string, unit: string, after: string, s: string)
    requires AllIn(Spaces, gap) && Unit(unit) && (unit == "" ==> after == "") && s != "" && s[0] == ':'
    ensures var next := gap + (unit + (after + s)); next != "" && !IsDigit(next[0])
  {
  }

  lemma {:induction false} BlankIff(w: string)
    ensures AllIn(Spaces, w) <==> Blank(w)
  {
  }

  lemma {:induction false} MatchItem(temp: nat, unit: string, value: nat, suffix: string, g: Gaps, rest: string)
    requires Follows(rest) && Unit(unit) && Suffix(suffix) && Blanks(g, unit)
    ensures Match(TEMP_RPM, Parts(PrintNat(temp), unit, PrintNat(value), suffix, g, rest)) ==
            Some(ItemSegs(temp, unit, value, suffix, g))
    ensures Length(ItemSegs(temp, unit, value, suffix, g)) ==
            |PrintNat(temp)| + |g.number| + |unit| + |g.unit|
            + 1 + |g.colon| + |PrintNat(value)| + |g.suffix| + |suffix|
  {
    hide Match, Length, UnitSegs, SuffixSegs, PrintNat, Blank;
    var a, b := PrintNat(temp), PrintNat(value);
    BlankIff(g.number);
    BlankIff(g.unit);
    BlankIff(g.colon);
    BlankIff(g.suffix);
    var s := ":" + (g.colon + (b + (g.suffix + (suffix + rest))));
    var v := [":", g.colon, b, g.suffix] + SuffixSegs(suffix);
    MatchValue(g.colon, b, g.suffix, suffix, rest);
    MatchUnit(g.number, unit, g.unit, s, v);
    AfterNumber(g.number, unit, g.unit, s);
    assert ItemSegs(temp, unit, value, suffix, g) == [a] + ([g.number] + UnitSegs(unit) + [g.unit] + v);
    assert [NUMBER] + UNITS == TEMP_RPM;
    Front(NUMBER, UNITS, TEMP_RPM, a, g.number + (unit + (g.unit + s)), [g.number] + UnitSegs(unit) + [g.unit] + v,
      ItemSegs(temp, unit, value, suffix, g));
  }

  /** The temperature of an item. */
  function KeyOf(temp: nat, unit: string): Temp {
    if Fahrenheit(unit) then Celsius(temp) else temp
  }

  lemma {:induction false} ItemText(lead: string, a: string, unit: string, b: string, suffix: string, g: Gaps,
      rest: string)
    ensures lead + (a + g.number + unit + g.unit + ":" + g.colon + b + g.suffix + suffix) + rest ==
            lead + Parts(a, unit, b, suffix, g, rest)
    ensures |lead + (a + g.number + unit + g.unit + ":" + g.colon + b + g.suffix + suffix)| ==
            |lead| + |a| + |g.number| + |unit| + |g.unit| + 1 + |g.colon| + |b| + |g.suffix| + |suffix|
  {
  }

  /** The search finds an item, whatever its unit, suffix and white space, up to its end. */
  lemma {:induction false} FindsItem(lead: string, temp: nat, unit: string, value: nat, suffix: string, g: Gaps,
      rest: string)
    requires Lead(lead) && Follows(rest) && Unit(unit) && Suffix(suffix) && Blanks(g, unit)
    ensures var text := lead + SpacedItem(temp, unit, value, suffix, g);
            var r := Search(TEMP_RPM, text + rest);
            && r.Some? && |r.value.1| == 11 && r.value.0 + Length(r.value.1) == |text|
            && r.value.1 == ItemSegs(temp, unit, value, suffix, g)
  {
    hide Match, Length, Search, PrintNat, UnitSegs, SuffixSegs, ItemSegs, Unit, Suffix, Follows, Blanks, Parts;
    var a, b := PrintNat(temp), PrintNat(value);
    MatchItem(temp, unit, value, suffix, g, rest);
    ItemText(lead, a, unit, b, suffix, g, rest);
    SearchAfter(TEMP_RPM, lead, Parts(a, unit, b, suffix, g, rest), ItemSegs(temp, unit, value, suffix, g));
  }

  /** What the value stands for on the calibration `t`. */
  function RpmOf(value: nat, suffix: string, t: Table): Outcome<Rpm> {
    if suffix == "%" then Lookup.PercentToRpm(t, value)
    else if suffix == "PWM" then Lookup.PwmToRpm(t, value)
    else Defined(value)
  }

  /** The RPM a value stands for, said of the map: with `%` the share that `PercentIs` gives, with `PWM` that of
      an entry, without suffix itself. */
  lemma {:induction false} AddsItem(acc: Table, temp: nat, unit: string, value: nat, suffix: string, g: Gaps, t: Table)
    requires Unit(unit) && Suffix(suffix) && temp < INT_LIMIT && value < UINT_RANGE
    ensures var segs := ItemSegs(temp, unit, value, suffix, g);
            var rpm := RpmOf(value, suffix, t);
            && (rpm.Defined? ==> AddTempRpm(acc, segs, t) == Defined(Put(acc, KeyOf(temp, unit), rpm.value)))
            && (!rpm.Defined? ==> AddTempRpm(acc, segs, t) == if rpm == Thrown then Thrown else Undefined)
  {
    hide PrintNat, FromString, Put, Lookup.PercentToRpm, Lookup.PwmToRpm, Celsius;
    FromStringOfPrint(temp, INT_LIMIT);
    FromStringOfPrint(value, UINT_RANGE);
  }

  /** What parsing goes on with after an item that puts `rpm`. */
  function Onward(rest: string, acc: Table, t: Table): Outcome<Table> {
    if rest == "" then Defined(acc) else ParseItems(Meant, rest[1..], acc, t)
  }

  /** Parsing an item puts its knot and goes on after the separator, however the item is spaced. */
  lemma {:induction false} ParsesSpaced(lead: string, temp: nat, unit: string, value: nat, suffix: string, g: Gaps,
      rest: string, acc: Table, t: Table, rpm: Rpm)
    requires Lead(lead) && Follows(rest) && Unit(unit) && Suffix(suffix) && Blanks(g, unit)
    requires temp < INT_LIMIT && value < UINT_RANGE && RpmOf(value, suffix, t) == Defined(rpm)
    ensures ParseItems(Meant, lead + SpacedItem(temp, unit, value, suffix, g) + rest, acc, t) ==
            Onward(rest, Put(acc, KeyOf(temp, unit), rpm), t)
  {
    hide Search, Length, Put, PrintNat, AddTempRpm, SpacedItem, ItemSegs, Blanks, Lookup.PercentToRpm, Lookup.PwmToRpm;
    var text := lead + SpacedItem(temp, unit, value, suffix, g);
    FindsItem(lead, temp, unit, value, suffix, g, rest);
    AddsItem(acc, temp, unit, value, suffix, g, t);
    assert (text + rest)[|text|..] == rest;
    if rest != "" {
      assert (text + rest)[|text| + 1..] == rest[1..];
    } else {
      NoItem(TEMP_RPM, "");
    }
  }

  lemma {:induction false} PrintedItem(temp: nat, unit: string, value: nat, suffix: string)
    ensures SpacedItem(temp, unit, value, suffix, PRINTED) == CurveItem(temp, unit, value, suffix)
    ensures Blanks(PRINTED, unit)
  {
    hide PrintNat;
    var a, b := PrintNat(temp), PrintNat(value);
    assert a + "" + unit + "" + ":" + " " + b + "" + suffix == a + unit + ": " + b + suffix;
  }

  lemma {:induction false} ParsesItem(lead: string, temp: nat, unit: string, value: nat, suffix: string, rest: string,
      acc: Table, t: Table, rpm: Rpm)
    requires Lead(lead) && Follows(rest) && Unit(unit) && Suffix(suffix)
    requires temp < INT_LIMIT && value < UINT_RANGE && RpmOf(value, suffix, t) == Defined(rpm)
    ensures ParseItems(Meant, lead + CurveItem(temp, unit, value, suffix) + rest, acc, t) ==
            Onward(rest, Put(acc, KeyOf(temp, unit), rpm), t)
  {
    hide ParseItems, Put, SpacedItem, CurveItem, RpmOf, Onward, Blanks;
    PrintedItem(temp, unit, value, suffix);
    ParsesSpaced(lead, temp, unit, value, suffix, PRINTED, rest, acc, t, rpm);
  }

  /** A fan without a calibration ignores any curve and keeps the one it has. */
  lemma {:induction false} UntestedIgnores(rule: SearchRule, s: string, acc: Table)
    ensures ParseTempRpm(rule, s, acc, []) == Defined(acc)
  {
  }

  /** An item `n: v%` puts a knot at its temperature: at a standstill for 0 %, at the lowest key at which the fan
      turns up to 99 %, and at the greatest key from 100 % on. */
  lemma {:induction false} ParsesPercent(lead: string, temp: nat, unit: string, percent: nat, rest: string, acc: Table,
      t: Table, rpm: Rpm)
    requires Lead(lead) && Follows(rest) && Unit(unit) && temp < INT_LIMIT && percent < UINT_RANGE
    requires t != [] && Sorted(t) && KeysNatural(t) && t[|t| - 1].key < UINT_RANGE
    requires if percent == 0 then rpm == 0
             else if percent < 100 then Lookup.LowestRunning(t, rpm)
             else Lookup.TopKey(t, rpm)
    ensures ParseItems(Meant, lead + CurveItem(temp, unit, percent, "%") + rest, acc, t) ==
            Onward(rest, Put(acc, KeyOf(temp, unit), rpm), t)
  {
    hide ParseItems, CurveItem, Onward, Put, Lookup.PercentToRpm;
    Lookup.PercentIs(t, percent, rpm);
    ParsesItem(lead, temp, unit, percent, "%", rest, acc, t, rpm);
  }

  /** An item `n: vPWM` with a PWM of the map puts a knot at the key of that entry. */
  lemma {:induction false} ParsesPwm(lead: string, temp: nat, unit: string, i: nat, rest: string, acc: Table, t: Table)
    requires Lead(lead) && Follows(rest) && Unit(unit) && temp < INT_LIMIT
    requires i < |t| && KeysNatural(t) && t[i].value <= PWM_MAX
    requires forall j :: 0 <= j < i ==> t[j].value < t[i].value
    ensures ParseItems(Meant, lead + CurveItem(temp, unit, t[i].value, "PWM") + rest, acc, t) ==
            Onward(rest, Put(acc, KeyOf(temp, unit), t[i].key), t)
  {
    hide ParseItems, CurveItem, Onward, Put, Lookup.PwmToRpm;
    Lookup.PwmOfEntry(t, i);
    ParsesItem(lead, temp, unit, t[i].value, "PWM", rest, acc, t, t[i].key);
  }

  /** Conversion to Celsius: five ninths of the distance from 32, cut toward zero. */
  lemma {:induction false} CelsiusIs(fahrenheit: Temp)
    ensures var ninths := 5 * (fahrenheit - 32);
            var c := Celsius(fahrenheit);
            && Abs(9 * c) <= Abs(ninths) < Abs(9 * c) + 9
            && (ninths >= 0 ==> c >= 0) && (ninths <= 0 ==> c <= 0)
  {
  }

  lemma {:induction false} OneDigit()
    ensures PrintNat(0) == "0" && PrintNat(1) == "1" && PrintNat(3) == "3" && PrintNat(4) == "4"
    ensures PrintNat(5) == "5" && PrintNat(7) == "7" && PrintNat(9) == "9"
    ensures Digit(0) == '0' && Digit(5) == '5' && Digit(9) == '9'
  {
  }

  lemma {:induction false} ThreeDigits(n: nat)
    requires n < 1000
    ensures |PrintNat(n)| <= 3
  {
    if n >= 10 {
      assert |PrintNat(n)| == |PrintNat(n / 10)| + 1;
      if n >= 100 {
        assert |PrintNat(n / 10)| == |PrintNat(n / 10 / 10)| + 1;
      }
    }
  }

  lemma {:induction false} SpacedText(lead: string, a: string, before: string, after: string, b: string, rest: string)
    ensures lead + (a + before + ":" + after + b) + rest == lead + (a + (before + (":" + (after + (b + rest)))))
    ensures |lead + (a + before + ":" + after + b)| == |lead| + |a| + |before| + 1 + |after| + |b|
  {
  }

  lemma {:induction false} MatchSpacedShort(after: string, b: string, rest: string)
    requires b != "" && AllDigits(b) && |b| <= 3 && Blank(after) && Follows(rest)
    ensures Match([COLON, GAP, SHORT], ":" + (after + (b + rest))) == Some([":", after, b])
    ensures Length([":", after, b]) == 1 + |after| + |b|
  {
    BlankIff(after);
    hide Match, Length, Blank;
    Nothing(rest);
    Front(SHORT, [], [SHORT], b, rest, [], [b]);
    Front(GAP, [SHORT], [GAP, SHORT], after, b + rest, [b], [after, b]);
    Front(COLON, [GAP, SHORT], [COLON, GAP, SHORT], ":", after + (b + rest), [after, b], [":", after, b]);
  }

  lemma {:induction false} BeforeColon(gap: string, s: string)
    requires AllIn(Spaces, gap) && s != "" && s[0] == ':'
    ensures gap + s != "" && !IsDigit((gap + s)[0])
  {
  }

  lemma {:induction false} MatchSpacedRpmPwm(a: string, before: string, after: string, b: string, rest: string)
    requires a != "" && AllDigits(a) && b != "" && AllDigits(b) && |b| <= 3
    requires Blank(before) && Blank(after) && Follows(rest)
    ensures Match(RPM_PWM, a + (before + (":" + (after + (b + rest))))) == Some([a, before, ":", after, b])
    ensures Length([a, before, ":", after, b]) == |a| + |before| + 1 + |after| + |b|
  {
    BlankIff(before);
    MatchSpacedShort(after, b, rest);
    hide Match, Length, Blank, Follows;
    var s := ":" + (after + (b + rest));
    Front(GAP, [COLON, GAP, SHORT], [GAP, COLON, GAP, SHORT], before, s, [":", after, b], [before, ":", after, b]);
    BeforeColon(before, s);
    Front(NUMBER, [GAP, COLON, GAP, SHORT], RPM_PWM, a, before + s, [before, ":", after, b],
      [a, before, ":", after, b]);
  }

  /** An rpm_to_pwm item with any white space around its colon puts its point, the PWM cut at 255. */
  lemma {:induction false} ParsesSpacedRpmPwm(lead: string, rpm: nat, before: string, after: string, pwm: nat,
      rest: string, acc: Table)
    requires Lead(lead) && Follows(rest) && Blank(before) && Blank(after) && rpm < UINT_RANGE && pwm < 1000
    ensures ParseRpmPwm(Meant, lead + (PrintNat(rpm) + before + ":" + after + PrintNat(pwm)) + rest, acc) ==
            var next := Put(acc, rpm, if pwm <= 255 then pwm else 255);
            if rest == "" then Defined(next) else ParseRpmPwm(Meant, rest[1..], next)
  {
    hide Search, Length, Match, Put, PrintNat, Follows;
    var a, b := PrintNat(rpm), PrintNat(pwm);
    var item := a + before + ":" + after + b;
    var segs := [a, before, ":", after, b];
    ThreeDigits(pwm);
    MatchSpacedRpmPwm(a, before, after, b, rest);
    var text := lead + item;
    SpacedText(lead, a, before, after, b, rest);
    SearchAfter(RPM_PWM, lead, a + (before + (":" + (after + (b + rest)))), segs);
    FromStringOfPrint(rpm, UINT_RANGE);
    FromStringOfPrint(pwm, UINT_RANGE);
    assert AddRpmPwm(acc, segs) == Put(acc, rpm, if pwm <= 255 then pwm else 255);
    assert (text + rest)[|text|..] == rest;
    if rest != "" {
      assert (text + rest)[|text| + 1..] == rest[1..];
    } else {
      NoItem(RPM_PWM, "");
    }
  }

  function Concat(segs: seq<string>): string {
    if segs == [] then "" else segs[0] + Concat(segs[1..])
  }

  lemma {:induction false} PrefixPart(w: string, rest: string, s: string)
    ensures w + rest <= s ==> w <= s
  {
    if w + rest <= s {
      assert s[..|w|] == s[..|w + rest|][..|w|] == (w + rest)[..|w|] == w;
    }
  }

  /** A reading of a pattern: one accepted substring a token, together a prefix of the text. */
  lemma {:induction false} SplitsIff(ts: seq<Token>, s: string, segs: seq<string>)
    ensures Splits(ts, s, segs)
       <==> |segs| == |ts| && (forall i :: 0 <= i < |ts| ==> Accepts(ts[i], segs[i])) && Concat(segs) <= s
    decreases |ts|
  {
    if ts != [] && segs != [] {
      var w, rest := segs[0], Concat(segs[1..]);
      if w <= s {
        SplitsIff(ts[1..], s[|w|..], segs[1..]);
        assert s == w + s[|w|..];
        assert rest <= s[|w|..] <==> w + rest <= s by {
          if w + rest <= s {
            assert s[|w|..][..|rest|] == s[..|w + rest|][|w|..] == rest;
          }
        }
      } else {
        PrefixPart(w, rest, s);
      }
      if Splits(ts, s, segs) {
        forall i | 0 <= i < |ts| ensures Accepts(ts[i], segs[i]) {
          assert i > 0 ==> ts[i] == ts[1..][i - 1] && segs[i] == segs[1..][i - 1];
        }
      } else if |segs| == |ts| && forall i :: 0 <= i < |ts| ==> Accepts(ts[i], segs[i]) {
        assert forall i :: 0 <= i < |ts| - 1 ==> ts[1..][i] == ts[i + 1] && segs[1..][i] == segs[i + 1];
      }
    }
  }

  lemma {:induction false} AcceptsAll(segs: seq<string>)
    requires |segs| == 11
    ensures (forall i :: 0 <= i < 11 ==> Accepts(TEMP_RPM[i], segs[i])) <==>
            && Accepts(NUMBER, segs[0]) && Accepts(GAP, segs[1]) && Accepts(FAHRENHEIT, segs[2])
            && Accepts(CELSIUS, segs[3]) && Accepts(GAP, segs[4]) && Accepts(COLON, segs[5]) && Accepts(GAP, segs[6])
            && Accepts(NUMBER, segs[7]) && Accepts(GAP, segs[8]) && Accepts(PERCENT, segs[9])
            && Accepts(MapText.PWM, segs[10])
  {
    hide Accepts;
  }

  lemma {:induction false} Characters(w: string, a: char, b: char)
    ensures |w| <= 1 && AllIn(OneOf(a, b), w) <==> w == "" || w == [a] || w == [b]
  {
  }

  lemma {:induction false} DigitsIff(w: string)
    ensures AllIn(Digits, w) <==> AllDigits(w)
  {
  }

  /** What can be read as a curve item: a number, at most one letter of each unit, a colon, a number, at most one
      percent sign and at most one `PWM`, with any white space in between. */
  lemma {:induction false} CurvePatternIff(s: string, segs: seq<string>)
    ensures Splits(TEMP_RPM, s, segs)
       <==> && |segs| == 11 && Concat(segs) <= s
            && segs[0] != "" && AllDigits(segs[0]) && Blank(segs[1])
            && (segs[2] == "" || segs[2] == "f" || segs[2] == "F")
            && (segs[3] == "" || segs[3] == "c" || segs[3] == "C")
            && Blank(segs[4]) && segs[5] == ":" && Blank(segs[6])
            && segs[7] != "" && AllDigits(segs[7]) && Blank(segs[8])
            && (segs[9] == "" || segs[9] == "%") && (segs[10] == "" || segs[10] == "PWM")
  {
    hide Splits, Concat;
    SplitsIff(TEMP_RPM, s, segs);
    if |segs| == 11 {
      Characters(segs[2], 'f', 'F');
      Characters(segs[3], 'c', 'C');
      Characters(segs[5], ':', ':');
      Characters(segs[9], '%', '%');
      forall i | 0 <= i < 11 ensures AllIn(Spaces, segs[i]) <==> Blank(segs[i]) {
        BlankIff(segs[i]);
      }
      forall i | 0 <= i < 11 ensures AllIn(Digits, segs[i]) <==> AllDigits(segs[i]) {
        DigitsIff(segs[i]);
      }
      AcceptsAll(segs);
    }
  }

  /** And as an rpm_to_pwm item: a number, a colon, and one to three digits. */
  lemma {:induction false} RpmPwmPatternIff(s: string, segs: seq<string>)
    ensures Splits(RPM_PWM, s, segs)
       <==> && |segs| == 5 && Concat(segs) <= s
            && segs[0] != "" && AllDigits(segs[0]) && Blank(segs[1]) && segs[2] == ":" && Blank(segs[3])
            && 1 <= |segs[4]| <= 3 && AllDigits(segs[4])
  {
    hide Splits, Concat;
    SplitsIff(RPM_PWM, s, segs);
    if |segs| == 5 {
      Characters(segs[2], ':', ':');
      forall i | 0 <= i < 5 ensures AllIn(Spaces, segs[i]) <==> Blank(segs[i]) {
        BlankIff(segs[i]);
      }
      forall i | 0 <= i < 5 ensures AllIn(Digits, segs[i]) <==> AllDigits(segs[i]) {
        DigitsIff(segs[i]);
      }
      hide AllIn, AllDigits, Blank;
      assert (forall i :: 0 <= i < 5 ==> Accepts(RPM_PWM[i], segs[i])) <==>
          Accepts(NUMBER, segs[0]) && Accepts(GAP, segs[1]) && Accepts(COLON, segs[2]) && Accepts(GAP, segs[3])
          && Accepts(SHORT, segs[4]);
    }
  }

  lemma {:induction false} DocumentedText()
    ensures CurveItem(39, "", 0, "%") == "39: 0%" && CurveItem(40, "", 1, "%") == "40: 1%"
    ensures CurveItem(75, "", 50, "%") == "75: 50%" && CurveItem(90, "", 100, "%") == "90: 100%"
  {
    hide PrintNat, Digit;
    OneDigit();
    PrintStep(39);
    PrintStep(40);
    PrintStep(75);
    PrintStep(50);
    PrintStep(90);
    PrintStep(10);
    PrintStep(100);
  }

  /** The calibration of the documented configuration. */
  const DOCUMENTED: Table := [Entry(0, 0), Entry(3206, 128), Entry(4954, 180), Entry(7281, 255)]

  lemma {:induction false} DocumentedSpeeds()
    ensures Sorted(DOCUMENTED) && KeysNatural(DOCUMENTED)
    ensures Lookup.LowestRunning(DOCUMENTED, 3206) && Lookup.TopKey(DOCUMENTED, 7281)
  {
    assert DOCUMENTED[1].key == 3206 && DOCUMENTED[3].key == 7281;
  }

  lemma {:induction false} PutNext(t: Table, k: int, v: nat, next: Table)
    requires Sorted(t) && (t != [] ==> t[|t| - 1].key < k) && next == t + [Entry(k, v)]
    ensures Put(t, k, v) == next && Sorted(next)
  {
    PutLast(t, k, v);
  }

  lemma {:induction false} DocumentedKnots()
    ensures Put(Put(Put(Put([], 39, 0), 40, 3206), 75, 3206), 90, 7281) ==
            [Entry(39, 0), Entry(40, 3206), Entry(75, 3206), Entry(90, 7281)]
  {
    assert Sorted([]);
    hide Put, Sorted;
    var one := [] + [Entry(39, 0)];
    PutNext([], 39, 0, one);
    var two := one + [Entry(40, 3206)];
    PutNext(one, 40, 3206, two);
    var three := two + [Entry(75, 3206)];
    PutNext(two, 75, 3206, three);
    PutNext(three, 90, 7281, three + [Entry(90, 7281)]);
  }

  lemma {:induction false} AfterComma(item: string, rest: string)
    ensures (", " + item + rest)[1..] == " " + item + rest
    ensures Follows(", " + item + rest) && ", " + item + rest != ""
  {
  }

  lemma {:induction false} DocumentedJoin(a: string, b: string, c: string, d: string)
    requires a == "39: 0%" && b == "40: 1%" && c == "75: 50%" && d == "90: 100%"
    ensures "39: 0%, 40: 1%, 75: 50%, 90: 100%" == "" + a + (", " + b + (", " + c + (", " + d + "")))
  {
  }

  lemma {:induction false} Ended()
    ensures Follows("")
  {
  }

  lemma {:induction false} DocumentedParse(a: string, b: string, c: string, d: string)
    requires a == CurveItem(39, "", 0, "%") && b == CurveItem(40, "", 1, "%")
    requires c == CurveItem(75, "", 50, "%") && d == CurveItem(90, "", 100, "%")
    ensures ParseItems(Meant, "" + a + (", " + b + (", " + c + (", " + d + ""))), [], DOCUMENTED) ==
            Defined(Put(Put(Put(Put([], 39, 0), 40, 3206), 75, 3206), 90, 7281))
  {
    DocumentedSpeeds();
    Ended();
    hide ParseItems, CurveItem, Put, Sorted, KeysNatural, Lookup.LowestRunning, Lookup.TopKey, Follows;
    var third := ", " + d + "";
    var second := ", " + c + third;
    var first := ", " + b + second;
    AfterComma(d, "");
    AfterComma(c, third);
    AfterComma(b, second);
    ParsesPercent("", 39, "", 0, first, [], DOCUMENTED, 0);
    ParsesPercent(" ", 40, "", 1, second, Put([], 39, 0), DOCUMENTED, 3206);
    ParsesPercent(" ", 75, "", 50, third, Put(Put([], 39, 0), 40, 3206), DOCUMENTED, 3206);
    ParsesPercent(" ", 90, "", 100, "", Put(Put(Put([], 39, 0), 40, 3206), 75, 3206), DOCUMENTED, 7281);
  }

  /** The documented curve: off at 39 degrees, at the lowest running speed from 40 up to 75, since half speed comes
      out as that, and at full speed at 90. */
  lemma {:induction false} DocumentedCurve()
    ensures ParseTempRpm(Meant, "39: 0%, 40: 1%, 75: 50%, 90: 100%", [], DOCUMENTED) ==
            Defined([Entry(39, 0), Entry(40, 3206), Entry(75, 3206), Entry(90, 7281)])
  {
    hide ParseItems, CurveItem, Put, Sorted, KeysNatural, Lookup.LowestRunning, Lookup.TopKey, Follows;
    var a, b := CurveItem(39, "", 0, "%"), CurveItem(40, "", 1, "%");
    var c, d := CurveItem(75, "", 50, "%"), CurveItem(90, "", 100, "%");
    DocumentedText();
    DocumentedJoin(a, b, c, d);
    DocumentedParse(a, b, c, d);
    DocumentedKnots();
  }
}
