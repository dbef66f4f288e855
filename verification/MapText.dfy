/** The text form of a fan's maps: `Util::map_str` prints them, `Fan::rpm_to_pwm_from(string)` and
    `Fan::temp_to_rpm_from` parse them back. */
module MapText {
  import opened Basics
  import opened Tables
  import opened Decimal
  import opened Regex
  import Lookup
  import Smoother

  /** Where the search for the next item ends. As written, the end iterator is left at the end of the last
      match, one before the new start, so the range is inverted; the meant range runs to the end of the text. */
  datatype SearchRule = AsWritten | Meant

  function Item(e: Entry): string {
    PrintInt(e.key) + ": " + PrintNat(e.value)
  }

  /** `map_str`. */
  function MapStr(t: Table): string {
    if t == [] then ""
    else if |t| == 1 then Item(t[0])
    else Item(t[0]) + ", " + MapStr(t[1..])
  }

  const NUMBER := Rep(Digits, 1, None)
  const SHORT := Rep(Digits, 1, Some(3))
  const GAP := Rep(Spaces, 0, None)
  const COLON := Rep(OneOf(':', ':'), 1, Some(1))
  const FAHRENHEIT := Rep(OneOf('f', 'F'), 0, Some(1))
  const CELSIUS := Rep(OneOf('c', 'C'), 0, Some(1))
  const PERCENT := Rep(OneOf('%', '%'), 0, Some(1))
  const PWM := OptWord("PWM")

  /** (\d+)\s*:\s*(\d{1,3}) */
  const RPM_PWM: seq<Token> := [NUMBER, GAP, COLON, GAP, SHORT]

  /** (\d+)\s*([fF])?[cC]?\s*[:]\s*(\d+)\s*(%)?(PWM)? */
  const TEMP_RPM: seq<Token> := [NUMBER, GAP, FAHRENHEIT, CELSIUS, GAP, COLON, GAP, NUMBER, GAP, PERCENT, PWM]

  /** What the next search sees after a match that ends at `end`: nothing at the end of the text, else the
      text after the character that follows the match. */
  function NextItem(rule: SearchRule, s: string, end: nat): Outcome<string>
    requires end <= |s|
  {
    if end == |s| then Defined("")
    else
      match rule
      case AsWritten => Undefined
      case Meant => Defined(s[end + 1..])
  }

  function AddRpmPwm(acc: Table, segs: seq<string>): Table
    requires |segs| == 5
  {
    match (FromString(segs[0], UINT_RANGE), FromString(segs[4], UINT_RANGE))
    case (Some(rpm), Some(pwm)) => Put(acc, rpm, ClampPwm(pwm))
    case _ => acc
  }

  /** `rpm_to_pwm_from(string)`: every item found is added to the map. */
  function ParseRpmPwm(rule: SearchRule, s: string, acc: Table): Outcome<Table>
    decreases |s|
  {
    SearchBounds(RPM_PWM, s);
    match Search(RPM_PWM, s)
    case None => Defined(acc)
    case Some((k, segs)) =>
      match NextItem(rule, s, k + Length(segs))
      case Defined(rest) => ParseRpmPwm(rule, rest, AddRpmPwm(acc, segs))
      case _ => Undefined
  }

  /** Fahrenheit to Celsius, truncated toward zero on assignment to an int. */
  function Celsius(fahrenheit: Temp): Temp {
    Smoother.TruncDiv(5 * (fahrenheit - 32), 9)
  }

  /** One curve item, with its unit suffixes; percentages and PWMs go through the calibration. */
  function AddTempRpm(acc: Table, segs: seq<string>, rpmToPwm: Table): Outcome<Table>
    requires |segs| == 11
  {
    match (FromString(segs[0], INT_LIMIT), FromString(segs[7], UINT_RANGE))
    case (Some(temp), Some(value)) =>
      var key := if segs[2] != "" then Celsius(temp) else temp;
      var rpm := if segs[9] != "" then Lookup.PercentToRpm(rpmToPwm, value)
                 else if segs[10] != "" then Lookup.PwmToRpm(rpmToPwm, value)
                 else Defined(value);
      (match rpm
       case Defined(r) => Defined(Put(acc, key, r))
       case Undefined => Undefined
       case Thrown => Thrown)
    case _ => Defined(acc)
  }

  function ParseItems(rule: SearchRule, s: string, acc: Table, rpmToPwm: Table): Outcome<Table>
    decreases |s|
  {
    SearchBounds(TEMP_RPM, s);
    match Search(TEMP_RPM, s)
    case None => Defined(acc)
    case Some((k, segs)) =>
      match AddTempRpm(acc, segs, rpmToPwm)
      case Defined(acc') =>
        (match NextItem(rule, s, k + Length(segs))
         case Defined(rest) => ParseItems(rule, rest, acc', rpmToPwm)
         case _ => Undefined)
      case Undefined => Undefined
      case Thrown => Thrown
  }

  /** `temp_to_rpm_from`: an untested fan ignores its curve. */
  function ParseTempRpm(rule: SearchRule, s: string, acc: Table, rpmToPwm: Table): Outcome<Table> {
    if rpmToPwm == [] then Defined(acc) else ParseItems(rule, s, acc, rpmToPwm)
  }

  /** Text that may follow an item: nothing, or a separator. */
  predicate Follows(rest: string) {
    rest == "" || rest[0] == ','
  }

  lemma {:induction false} MatchShort(b: string, rest: string)
    requires b != "" && AllDigits(b) && |b| <= 3 && Follows(rest)
    ensures Match([COLON, GAP, SHORT], ":" + (" " + (b + rest))) == Some([":", " ", b])
    ensures Length([":", " ", b]) == 2 + |b|
  {
    hide Match, Length;
    Nothing(rest);
    Front(SHORT, [], [SHORT], b, rest, [], [b]);
    Front(GAP, [SHORT], [GAP, SHORT], " ", b + rest, [b], [" ", b]);
    Front(COLON, [GAP, SHORT], [COLON, GAP, SHORT], ":", " " + (b + rest), [" ", b], [":", " ", b]);
  }

  /** A number in front of text that does not continue it. */
  lemma {:induction false} NumberFront(ts: seq<Token>, all: seq<Token>, a: string, s: string, segs: seq<string>,
      out: seq<string>)
    requires all == [NUMBER] + ts && out == [a] + segs
    requires a != "" && AllDigits(a) && s != "" && s[0] == ':'
    requires Match(ts, s) == Some(segs)
    ensures Match(all, a + s) == Some(out) && Length(out) == |a| + Length(segs)
  {
    hide Match, Length;
    Front(NUMBER, ts, all, a, s, segs, out);
  }

  lemma {:induction false} GapFront(ts: seq<Token>, all: seq<Token>, s: string, segs: seq<string>, out: seq<string>)
    requires all == [GAP] + ts && out == [""] + segs
    requires s != "" && s[0] == ':' && Match(ts, s) == Some(segs)
    ensures Match(all, s) == Some(out) && Length(out) == Length(segs)
  {
  }

  lemma {:induction false} MatchRpmPwm(a: string, s: string, b: string)
    requires a != "" && AllDigits(a) && s != "" && s[0] == ':'
    requires Match([COLON, GAP, SHORT], s) == Some([":", " ", b]) && Length([":", " ", b]) == 2 + |b|
    ensures Match(RPM_PWM, a + s) == Some([a, "", ":", " ", b])
    ensures Length([a, "", ":", " ", b]) == |a| + 2 + |b|
  {
    hide Match, Length, AllDigits;
    GapFront([COLON, GAP, SHORT], [GAP, COLON, GAP, SHORT], s, [":", " ", b], ["", ":", " ", b]);
    NumberFront([GAP, COLON, GAP, SHORT], RPM_PWM, a, s, ["", ":", " ", b], [a, "", ":", " ", b]);
  }

  lemma {:induction false} NoWord(rest: string)
    requires Follows(rest)
    ensures Match([PWM], rest) == Some([""]) && Length([""]) == 0
  {
    assert [PWM][1..] == [] && [""][1..] == [] && [""] + [] == [""];
    assert PWM.word[0] == 'P';
    Nothing(rest);
  }

  lemma {:induction false} MatchSuffixes(rest: string)
    requires Follows(rest)
    ensures Match([GAP, PERCENT, PWM], rest) == Some(["", "", ""]) && Length(["", "", ""]) == 0
  {
    hide Match, Length;
    NoWord(rest);
    Skip(PERCENT, [PWM], [PERCENT, PWM], rest, [""], ["", ""]);
    Skip(GAP, [PERCENT, PWM], [GAP, PERCENT, PWM], rest, ["", ""], ["", "", ""]);
  }

  const VALUE: seq<Token> := [COLON, GAP, NUMBER, GAP, PERCENT, PWM]

  lemma {:induction false} MatchTempValue(b: string, rest: string)
    requires b != "" && AllDigits(b) && Follows(rest)
    ensures Match(VALUE, ":" + (" " + (b + rest))) == Some([":", " ", b, "", "", ""])
    ensures Length([":", " ", b, "", "", ""]) == 2 + |b|
  {
    hide Match, Length;
    MatchSuffixes(rest);
    var tail := [GAP, PERCENT, PWM];
    Front(NUMBER, tail, [NUMBER] + tail, b, rest, ["", "", ""], [b, "", "", ""]);
    Front(GAP, [NUMBER] + tail, [GAP, NUMBER] + tail, " ", b + rest, [b, "", "", ""], [" ", b, "", "", ""]);
    Front(COLON, [GAP, NUMBER] + tail, VALUE, ":", " " + (b + rest), [" ", b, "", "", ""], [":", " ", b, "", "", ""]);
  }

  const UNITS: seq<Token> := [GAP, FAHRENHEIT, CELSIUS, GAP] + VALUE

  lemma {:induction false} MatchUnits(s: string, v: seq<string>)
    requires s != "" && s[0] == ':' && Match(VALUE, s) == Some(v)
    ensures Match(UNITS, s) == Some(["", "", "", ""] + v) && Length(["", "", "", ""] + v) == Length(v)
  {
    hide Match, Length;
    Skip(GAP, VALUE, [GAP] + VALUE, s, v, [""] + v);
    Skip(CELSIUS, [GAP] + VALUE, [CELSIUS, GAP] + VALUE, s, [""] + v, ["", ""] + v);
    Skip(FAHRENHEIT, [CELSIUS, GAP] + VALUE, [FAHRENHEIT, CELSIUS, GAP] + VALUE, s, ["", ""] + v, ["", "", ""] + v);
    Skip(GAP, [FAHRENHEIT, CELSIUS, GAP] + VALUE, UNITS, s, ["", "", ""] + v, ["", "", "", ""] + v);
  }

  lemma {:induction false} MatchTempRpm(a: string, s: string, b: string)
    requires a != "" && AllDigits(a) && s != "" && s[0] == ':'
    requires Match(VALUE, s) == Some([":", " ", b, "", "", ""]) && Length([":", " ", b, "", "", ""]) == 2 + |b|
    ensures Match(TEMP_RPM, a + s) == Some([a, "", "", "", "", ":", " ", b, "", "", ""])
    ensures Length([a, "", "", "", "", ":", " ", b, "", "", ""]) == |a| + 2 + |b|
  {
    hide Match, Length, AllDigits;
    var v := [":", " ", b, "", "", ""];
    MatchUnits(s, v);
    NumberFront(UNITS, TEMP_RPM, a, s, ["", "", "", ""] + v, [a, "", "", "", "", ":", " ", b, "", "", ""]);
  }

  /** What the parser may skip before an item: the space of the separator and a sign. */
  predicate Lead(lead: string) {
    lead == "" || lead == " "
  }

  function Sign(key: int): string {
    if key < 0 then "-" else ""
  }

  lemma {:induction false} ItemShape(lead: string, e: Entry, rest: string)
    ensures lead + Item(e) + rest
         == (lead + Sign(e.key)) + (PrintNat(Abs(e.key)) + (":" + (" " + (PrintNat(e.value) + rest))))
    ensures |lead + Item(e)| == |lead + Sign(e.key)| + |PrintNat(Abs(e.key))| + 2 + |PrintNat(e.value)|
  {
  }

  /** The search finds a printed rpm_to_pwm item and ends where the item ends. */
  lemma {:induction false} FindsRpmPwm(lead: string, e: Entry, rest: string, acc: Table)
    requires Lead(lead) && Follows(rest) && 0 <= e.key < UINT_RANGE && e.value <= PWM_MAX
    ensures var r := Search(RPM_PWM, lead + Item(e) + rest);
            && r.Some? && |r.value.1| == 5
            && r.value.0 + Length(r.value.1) == |lead + Item(e)|
            && AddRpmPwm(acc, r.value.1) == Put(acc, e.key, e.value)
  {
    hide Match, Length, Search, PrintNat, Put;
    var a, b := PrintNat(e.key), PrintNat(e.value);
    PwmWidth(e.value);
    MatchShort(b, rest);
    var s := ":" + (" " + (b + rest));
    MatchRpmPwm(a, s, b);
    ItemShape(lead, e, rest);
    assert lead + Sign(e.key) == lead;
    SearchAfter(RPM_PWM, lead, a + s, [a, "", ":", " ", b]);
    FromStringOfPrint(e.key, UINT_RANGE);
    FromStringOfPrint(e.value, UINT_RANGE);
  }

  /** What one printed curve item becomes: the sign is not part of the match. */
  function Reread(acc: Table, e: Entry): Table {
    if Abs(e.key) < INT_LIMIT then Put(acc, Abs(e.key), e.value) else acc
  }

  lemma {:induction false} FindsTempRpm(lead: string, e: Entry, rest: string, acc: Table, rpmToPwm: Table)
    requires Lead(lead) && Follows(rest) && e.value < UINT_RANGE
    ensures var r := Search(TEMP_RPM, lead + Item(e) + rest);
            && r.Some? && |r.value.1| == 11
            && r.value.0 + Length(r.value.1) == |lead + Item(e)|
            && AddTempRpm(acc, r.value.1, rpmToPwm) == Defined(Reread(acc, e))
  {
    hide Match, Length, Search, PrintNat, Put;
    var a, b := PrintNat(Abs(e.key)), PrintNat(e.value);
    MatchTempValue(b, rest);
    var s := ":" + (" " + (b + rest));
    MatchTempRpm(a, s, b);
    ItemShape(lead, e, rest);
    SearchAfter(TEMP_RPM, lead + Sign(e.key), a + s, [a, "", "", "", "", ":", " ", b, "", "", ""]);
    FromStringOfPrint(Abs(e.key), INT_LIMIT);
    FromStringOfPrint(e.value, UINT_RANGE);
  }

  lemma {:induction false} MatchFahrenheit(a: string, s: string, b: string)
    requires a != "" && AllDigits(a) && s != "" && s[0] == ':'
    requires Match(VALUE, s) == Some([":", " ", b, "", "", ""]) && Length([":", " ", b, "", "", ""]) == 2 + |b|
    ensures Match(TEMP_RPM, a + ("f" + s)) == Some([a, "", "f", "", "", ":", " ", b, "", "", ""])
    ensures Length([a, "", "f", "", "", ":", " ", b, "", "", ""]) == |a| + 3 + |b|
  {
    hide Match, Length;
    var v := [":", " ", b, "", "", ""];
    var ts := [CELSIUS, GAP] + VALUE;
    Skip(GAP, VALUE, [GAP] + VALUE, s, v, [""] + v);
    Skip(CELSIUS, [GAP] + VALUE, ts, s, [""] + v, ["", ""] + v);
    Front(FAHRENHEIT, ts, [FAHRENHEIT] + ts, "f", s, ["", ""] + v, ["f", "", ""] + v);
    Skip(GAP, [FAHRENHEIT] + ts, [GAP, FAHRENHEIT] + ts, "f" + s, ["f", "", ""] + v, ["", "f", "", ""] + v);
    Front(NUMBER, [GAP, FAHRENHEIT] + ts, TEMP_RPM, a, "f" + s, ["", "f", "", ""] + v,
      [a, "", "f", "", "", ":", " ", b, "", "", ""]);
  }

  function FahrenheitItem(fahrenheit: nat, rpm: Rpm): string {
    PrintNat(fahrenheit) + "f: " + PrintNat(rpm)
  }

  /** An item in Fahrenheit is found up to its end, and puts its knot at the temperature in Celsius. */
  lemma {:induction false} FindsFahrenheit(fahrenheit: nat, rpm: Rpm, rest: string, acc: Table, rpmToPwm: Table)
    requires Follows(rest) && fahrenheit < INT_LIMIT && rpm < UINT_RANGE
    ensures var r := Search(TEMP_RPM, FahrenheitItem(fahrenheit, rpm) + rest);
            && r.Some? && |r.value.1| == 11
            && r.value.0 + Length(r.value.1) == |FahrenheitItem(fahrenheit, rpm)|
            && AddTempRpm(acc, r.value.1, rpmToPwm) == Defined(Put(acc, Celsius(fahrenheit), rpm))
  {
    hide Match, Length, Search, PrintNat, Put;
    var a, b := PrintNat(fahrenheit), PrintNat(rpm);
    MatchTempValue(b, rest);
    var s := ":" + (" " + (b + rest));
    MatchFahrenheit(a, s, b);
    assert FahrenheitItem(fahrenheit, rpm) + rest == "" + (a + ("f" + s));
    SearchAfter(TEMP_RPM, "", a + ("f" + s), [a, "", "f", "", "", ":", " ", b, "", "", ""]);
    FromStringOfPrint(fahrenheit, INT_LIMIT);
    FromStringOfPrint(rpm, UINT_RANGE);
  }

  /** The text after an item of `map_str`: nothing, or a separator and the remaining items. */
  function After(t: Table): (rest: string)
    requires t != []
    ensures Follows(rest)
    ensures |t| == 1 <==> rest == ""
  {
    if |t| == 1 then "" else ", " + MapStr(t[1..])
  }

  lemma {:induction false} Regroup(lead: string, item: string, tail: string)
    ensures lead + (item + ", " + tail) == lead + item + (", " + tail)
    ensures (", " + tail)[1..] == " " + tail
  {
  }

  lemma {:induction false} MapStrSplits(lead: string, t: Table)
    requires t != []
    ensures lead + MapStr(t) == lead + Item(t[0]) + After(t)
    ensures |t| > 1 ==> After(t)[1..] == " " + MapStr(t[1..])
  {
    hide Item;
    if |t| > 1 {
      Regroup(lead, Item(t[0]), MapStr(t[1..]));
    }
  }

  /** A printed number ends where the digits end. */
  lemma {:induction false} NumberSplits(m: nat, n: nat, x: string, y: string)
    requires x == "" || !IsDigit(x[0])
    requires y == "" || !IsDigit(y[0])
    requires PrintNat(m) + x == PrintNat(n) + y
    ensures m == n && x == y
  {
    var a, b := PrintNat(m), PrintNat(n);
    hide PrintNat, Span;
    SpanIs(Digits, None, a, x);
    SpanIs(Digits, None, b, y);
    assert a == (a + x)[..|a|] && b == (b + y)[..|b|];
    assert x == (a + x)[|a|..] && y == (b + y)[|b|..];
    ValueOfPrint(m);
    ValueOfPrint(n);
  }

  lemma {:induction false} SameKey(k: int, l: int)
    requires Abs(k) == Abs(l) && Sign(k) == Sign(l)
    ensures k == l
  {
  }

  lemma {:induction false} ItemSplits(e: Entry, f: Entry, x: string, y: string)
    requires Follows(x) && Follows(y) && Item(e) + x == Item(f) + y
    ensures e == f && x == y
  {
    hide PrintNat, Item, Abs;
    var v, w := PrintNat(e.value) + x, PrintNat(f.value) + y;
    var k, l := PrintNat(Abs(e.key)) + (":" + (" " + v)), PrintNat(Abs(f.key)) + (":" + (" " + w));
    ItemShape("", e, x);
    ItemShape("", f, y);
    assert "" + Item(e) == Item(e) && "" + Sign(e.key) == Sign(e.key);
    assert "" + Item(f) == Item(f) && "" + Sign(f.key) == Sign(f.key);
    assert IsDigit(k[0]) && IsDigit(l[0]);
    assert (Sign(e.key) + k)[0] == if e.key < 0 then '-' else k[0];
    assert (Sign(f.key) + l)[0] == if f.key < 0 then '-' else l[0];
    assert k == (Sign(e.key) + k)[|Sign(e.key)|..] && l == (Sign(f.key) + l)[|Sign(f.key)|..];
    NumberSplits(Abs(e.key), Abs(f.key), ":" + (" " + v), ":" + (" " + w));
    assert v == (":" + (" " + v))[2..] && w == (":" + (" " + w))[2..];
    NumberSplits(e.value, f.value, x, y);
    SameKey(e.key, f.key);
  }

  lemma {:induction false} NonEmptyText(t: Table)
    ensures MapStr(t) == "" <==> t == []
  {
  }

  /** Different maps print differently, whatever their entries. */
  lemma {:induction false} MapStrInjective(t: Table, u: Table)
    requires MapStr(t) == MapStr(u)
    ensures t == u
    decreases |t|
  {
    hide Item, MapStr;
    NonEmptyText(t);
    NonEmptyText(u);
    if t != [] {
      MapStrSplits("", t);
      MapStrSplits("", u);
      assert "" + MapStr(t) == MapStr(t) && "" + Item(t[0]) == Item(t[0]);
      assert "" + MapStr(u) == MapStr(u) && "" + Item(u[0]) == Item(u[0]);
      ItemSplits(t[0], u[0], After(t), After(u));
      assert t == [t[0]] + t[1..] && u == [u[0]] + u[1..];
      if |t| > 1 {
        assert (" " + MapStr(t[1..]))[1..] == MapStr(t[1..]) && (" " + MapStr(u[1..]))[1..] == MapStr(u[1..]);
        MapStrInjective(t[1..], u[1..]);
      }
    }
  }

  lemma {:induction false} NoItem(ts: seq<Token>, s: string)
    requires ts != [] && ts[0] == Rep(Digits, 1, None)
    requires s == ""
    ensures Search(ts, s) == None
  {
    NoDigit(ts, s);
  }

  /** The entries the program's types allow in an rpm_to_pwm map. */
  ghost predicate RpmTable(t: Table) {
    Sorted(t) && forall i :: 0 <= i < |t| ==> 0 <= t[i].key < UINT_RANGE
  }

  ghost predicate PwmValues(t: Table) {
    forall i :: 0 <= i < |t| ==> t[i].value <= PWM_MAX
  }

  /** One step of the parser on printed text. */
  lemma {:induction false} ParsesRpmPwmItem(rule: SearchRule, lead: string, t: Table, acc: Table)
    requires Lead(lead) && t != [] && 0 <= t[0].key < UINT_RANGE && t[0].value <= PWM_MAX
    ensures ParseRpmPwm(rule, lead + MapStr(t), acc) ==
            if |t| == 1 then Defined(Put(acc, t[0].key, t[0].value))
            else if rule == AsWritten then Undefined
            else ParseRpmPwm(rule, " " + MapStr(t[1..]), Put(acc, t[0].key, t[0].value))
  {
    hide Search, Length, Item, MapStr, Put, AddRpmPwm;
    var rest := After(t);
    MapStrSplits(lead, t);
    FindsRpmPwm(lead, t[0], rest, acc);
    var s := lead + Item(t[0]) + rest;
    assert s[|lead + Item(t[0])|..] == rest;
    if rest != "" {
      assert s[|lead + Item(t[0])| + 1..] == rest[1..];
    } else {
      NoItem(RPM_PWM, "");
    }
  }

  lemma {:induction false} PrefixSorted(acc: Table, t: Table)
    requires Sorted(acc + t) && t != []
    ensures Sorted(acc) && (acc != [] ==> acc[|acc| - 1].key < t[0].key)
    ensures forall i :: 0 <= i < |t| ==> (acc + t)[|acc| + i] == t[i]
  {
    assert forall i :: 0 <= i < |acc| ==> (acc + t)[i] == acc[i];
    assert (acc + t)[|acc|] == t[0];
  }

  lemma {:induction false} ParsesRpmPwm(lead: string, t: Table, acc: Table)
    requires Lead(lead) && t != [] && RpmTable(acc + t) && PwmValues(t)
    ensures ParseRpmPwm(Meant, lead + MapStr(t), acc) == Defined(acc + t)
    decreases |t|
  {
    hide MapStr, ParseRpmPwm, Put;
    PrefixSorted(acc, t);
    assert (acc + t)[|acc|] == t[0];
    ParsesRpmPwmItem(Meant, lead, t, acc);
    PutLast(acc, t[0].key, t[0].value);
    assert acc + t == (acc + [t[0]]) + t[1..];
    if |t| > 1 {
      ParsesRpmPwm(" ", t[1..], acc + [t[0]]);
    } else {
      assert t == [t[0]];
    }
  }

  lemma {:induction false} AddedPwms(acc: Table, segs: seq<string>)
    requires |segs| == 5 && PwmValues(acc)
    ensures PwmValues(AddRpmPwm(acc, segs))
  {
  }

  /** Whatever the text, parsed PWMs are clamped. */
  lemma {:induction false} ParsedPwms(rule: SearchRule, s: string, acc: Table)
    requires PwmValues(acc)
    ensures var r := ParseRpmPwm(rule, s, acc); r.Defined? ==> PwmValues(r.value)
    decreases |s|
  {
    hide Search, Put, PwmValues;
    SearchBounds(RPM_PWM, s);
    var r := Search(RPM_PWM, s);
    if r.Some? {
      var rest := NextItem(rule, s, r.value.0 + Length(r.value.1));
      AddedPwms(acc, r.value.1);
      if rest.Defined? {
        ParsedPwms(rule, rest.value, AddRpmPwm(acc, r.value.1));
      }
    }
  }

  lemma {:induction false} EmptyText(ts: seq<Token>)
    requires ts != [] && ts[0] == Rep(Digits, 1, None)
    ensures Search(ts, MapStr([])) == None
  {
    NoItem(ts, "");
  }

  /** Printing an rpm_to_pwm map and parsing it into an empty one gives the same map exactly when its PWMs
      are within 0..255. */
  lemma {:induction false} RpmPwmRoundTripIff(t: Table)
    requires RpmTable(t)
    ensures ParseRpmPwm(Meant, MapStr(t), []) == Defined(t) <==> PwmValues(t)
  {
    ParsedPwms(Meant, MapStr(t), []);
    if PwmValues(t) {
      if t == [] {
        EmptyText(RPM_PWM);
      } else {
        assert "" + MapStr(t) == MapStr(t) && [] + t == t;
        ParsesRpmPwm("", t, []);
      }
    }
  }

  /** As written the parser reads the text back exactly when there is at most one entry; with more, the
      second search gets an inverted range. */
  lemma {:induction false} RpmPwmAsWrittenIff(t: Table)
    requires RpmTable(t) && PwmValues(t)
    ensures ParseRpmPwm(AsWritten, MapStr(t), []) == Defined(t) <==> |t| <= 1
    ensures |t| > 1 ==> ParseRpmPwm(AsWritten, MapStr(t), []) == Undefined
  {
    if t == [] {
      EmptyText(RPM_PWM);
    } else {
      assert "" + MapStr(t) == MapStr(t);
      ParsesRpmPwmItem(AsWritten, "", t, []);
      PutLast([], t[0].key, t[0].value);
      assert |t| == 1 ==> [] + [Entry(t[0].key, t[0].value)] == t;
    }
  }

  /** The entries the program's types allow in a curve. */
  ghost predicate CurveTable(t: Table) {
    Sorted(t) && forall i :: 0 <= i < |t| ==> -INT_LIMIT <= t[i].key < INT_LIMIT && t[i].value < UINT_RANGE
  }

  lemma {:induction false} ParsesTempRpmItem(rule: SearchRule, lead: string, t: Table, acc: Table, rpmToPwm: Table)
    requires Lead(lead) && t != [] && t[0].value < UINT_RANGE
    ensures ParseItems(rule, lead + MapStr(t), acc, rpmToPwm) ==
            if |t| == 1 then Defined(Reread(acc, t[0]))
            else if rule == AsWritten then Undefined
            else ParseItems(rule, " " + MapStr(t[1..]), Reread(acc, t[0]), rpmToPwm)
  {
    hide Search, Length, Item, MapStr, Put, AddTempRpm, Reread;
    var rest := After(t);
    MapStrSplits(lead, t);
    FindsTempRpm(lead, t[0], rest, acc, rpmToPwm);
    var s := lead + Item(t[0]) + rest;
    assert s[|lead + Item(t[0])|..] == rest;
    if rest != "" {
      assert s[|lead + Item(t[0])| + 1..] == rest[1..];
    } else {
      NoItem(TEMP_RPM, "");
    }
  }

  /** A curve read back from its own text: the minus signs are lost. */
  function RereadAll(acc: Table, t: Table): Table
    decreases |t|
  {
    if t == [] then acc else RereadAll(Reread(acc, t[0]), t[1..])
  }

  lemma {:induction false} ParsesTempRpm(lead: string, t: Table, acc: Table, rpmToPwm: Table)
    requires Lead(lead) && t != [] && forall i :: 0 <= i < |t| ==> t[i].value < UINT_RANGE
    ensures ParseItems(Meant, lead + MapStr(t), acc, rpmToPwm) == Defined(RereadAll(acc, t))
    decreases |t|
  {
    hide MapStr, ParseItems, Reread;
    ParsesTempRpmItem(Meant, lead, t, acc, rpmToPwm);
    if |t| > 1 {
      ParsesTempRpm(" ", t[1..], Reread(acc, t[0]), rpmToPwm);
    }
  }

  lemma {:induction false} RereadNatural(acc: Table, t: Table)
    requires CurveTable(acc + t) && KeysNatural(t)
    ensures RereadAll(acc, t) == acc + t
    decreases |t|
  {
    hide Put;
    if t != [] {
      PrefixSorted(acc, t);
      PutLast(acc, t[0].key, t[0].value);
      assert acc + t == (acc + [t[0]]) + t[1..];
      RereadNatural(acc + [t[0]], t[1..]);
    } else {
      assert acc + t == acc;
    }
  }

  lemma {:induction false} PutKeys(t: Table, k: int, v: nat)
    requires KeysNatural(t) && k >= 0
    ensures KeysNatural(Put(t, k, v))
  {
  }

  lemma {:induction false} RereadKeys(acc: Table, t: Table)
    requires KeysNatural(acc)
    ensures KeysNatural(RereadAll(acc, t))
    decreases |t|
  {
    if t != [] {
      PutKeys(acc, Abs(t[0].key), t[0].value);
      RereadKeys(Reread(acc, t[0]), t[1..]);
    }
  }

  /** Printing a curve and parsing it into an empty one on a calibrated fan gives the same curve exactly
      when no temperature is negative. */
  lemma {:induction false} TempRpmRoundTripIff(t: Table, rpmToPwm: Table)
    requires CurveTable(t) && rpmToPwm != []
    ensures ParseTempRpm(Meant, MapStr(t), [], rpmToPwm) == Defined(t) <==> KeysNatural(t)
  {
    if t == [] {
      EmptyText(TEMP_RPM);
    } else {
      assert "" + MapStr(t) == MapStr(t) && [] + t == t;
      ParsesTempRpm("", t, [], rpmToPwm);
      RereadKeys([], t);
      if KeysNatural(t) {
        RereadNatural([], t);
      }
    }
  }

  lemma {:induction false} TempRpmAsWrittenIff(t: Table, rpmToPwm: Table)
    requires CurveTable(t) && KeysNatural(t) && rpmToPwm != []
    ensures ParseTempRpm(AsWritten, MapStr(t), [], rpmToPwm) == Defined(t) <==> |t| <= 1
    ensures |t| > 1 ==> ParseTempRpm(AsWritten, MapStr(t), [], rpmToPwm) == Undefined
  {
    if t == [] {
      EmptyText(TEMP_RPM);
    } else {
      assert "" + MapStr(t) == MapStr(t);
      ParsesTempRpmItem(AsWritten, "", t, [], rpmToPwm);
      PutLast([], t[0].key, t[0].value);
      assert |t| == 1 ==> [] + [Entry(t[0].key, t[0].value)] == t;
    }
  }

  /** A knot at -5 degrees is read back as one at 5. */
  lemma {:induction false} NegativeKnotExample(rpmToPwm: Table)
    requires rpmToPwm != []
    ensures ParseTempRpm(Meant, MapStr([Entry(-5, 800)]), [], rpmToPwm) == Defined([Entry(5, 800)])
  {
    assert "" + MapStr([Entry(-5, 800)]) == MapStr([Entry(-5, 800)]);
    ParsesTempRpm("", [Entry(-5, 800)], [], rpmToPwm);
    PutLast([], 5, 800);
    assert Reread([], Entry(-5, 800)) == [] + [Entry(5, 800)] == [Entry(5, 800)];
    assert RereadAll([], [Entry(-5, 800)]) == RereadAll([Entry(5, 800)], [Entry(-5, 800)][1..]);
    assert [Entry(-5, 800)][1..] == [];
  }

  lemma {:induction false} SmallDigits()
    ensures PrintNat(1) == "1" && PrintNat(2) == "2" && PrintNat(5) == "5" && PrintNat(8) == "8"
    ensures Digit(0) == '0' && Digit(2) == '2' && Digit(3) == '3'
  {
  }

  lemma {:induction false} PrintStep(n: nat)
    requires n >= 10
    ensures PrintNat(n) == PrintNat(n / 10) + [Digit(n % 10)]
  {
  }

  lemma {:induction false} ExampleText()
    ensures FahrenheitItem(23, 800) == "23f: 800"
    ensures MapStr([Entry(5, 1200)]) == "5: 1200"
  {
    hide PrintNat, Digit;
    SmallDigits();
    PrintStep(23);
    PrintStep(80);
    PrintStep(800);
    PrintStep(12);
    PrintStep(120);
    PrintStep(1200);
  }

  lemma {:induction false} ExampleKnots()
    ensures RereadAll(Put([], -5, 800), [Entry(5, 1200)]) == [Entry(-5, 800), Entry(5, 1200)]
  {
    hide Put;
    PutLast([], -5, 800);
    assert Put([], -5, 800) == [Entry(-5, 800)];
    PutLast([Entry(-5, 800)], 5, 1200);
    assert Reread([Entry(-5, 800)], Entry(5, 1200)) == [Entry(-5, 800), Entry(5, 1200)];
    assert [Entry(5, 1200)][1..] == [];
  }

  /** -5 degrees can still be reached, from 23 degrees Fahrenheit. */
  lemma {:induction false} FahrenheitExample(rpmToPwm: Table)
    requires rpmToPwm != []
    ensures ParseTempRpm(Meant, "23f: 800, 5: 1200", [], rpmToPwm) == Defined([Entry(-5, 800), Entry(5, 1200)])
  {
    hide Search, Length, FahrenheitItem, MapStr, Put, RereadAll, AddTempRpm;
    var item, tail := FahrenheitItem(23, 800), MapStr([Entry(5, 1200)]);
    ExampleText();
    assert "23f: 800, 5: 1200" == item + (", " + tail);
    FindsFahrenheit(23, 800, ", " + tail, [], rpmToPwm);
    assert (item + (", " + tail))[|item| + 1..] == " " + tail;
    ParsesTempRpm(" ", [Entry(5, 1200)], Put([], -5, 800), rpmToPwm);
    ExampleKnots();
  }
}
