/** The part of ECMAScript regular expressions the program uses: a sequence of greedy repetitions of
    character classes and optional words, matched by backtracking, searched for leftmost first. */
module Regex {
  import opened Basics
  import opened Decimal

  /** \d, \s, and a bracket of one or two characters. */
  datatype CharClass = Digits | Spaces | OneOf(a: char, b: char)

  predicate InClass(cls: CharClass, c: char) {
    match cls
    case Digits => IsDigit(c)
    case Spaces => c == ' ' || '\t' <= c <= '\r'
    case OneOf(a, b) => c == a || c == b
  }

  predicate AllIn(cls: CharClass, w: string) {
    forall i :: 0 <= i < |w| ==> InClass(cls, w[i])
  }

  /** A greedy repetition between `lo` and `hi` times (no upper limit for None), or `(word)?`. */
  datatype Token = Rep(cls: CharClass, lo: nat, hi: Option<nat>) | OptWord(word: string)

  /** The longest prefix of `s` in the class, cut at the limit. */
  function Span(cls: CharClass, hi: Option<nat>, s: string): (k: nat)
    ensures k <= |s| && AllIn(cls, s[..k]) && (hi.Some? ==> k <= hi.value)
    ensures k < |s| && !(hi.Some? && hi.value == k) ==> !InClass(cls, s[k])
    decreases |s|
  {
    if s == "" || !InClass(cls, s[0]) || hi == Some(0) then 0
    else 1 + Span(cls, if hi.Some? then Some(hi.value - 1) else None, s[1..])
  }

  /** The substrings the tokens match at the start of `s`, in order: the first success of a backtracking
      matcher that tries more before less. */
  function Match(ts: seq<Token>, s: string): Option<seq<string>>
    decreases |ts|, |s| + 2
  {
    if ts == [] then Some([])
    else
      match ts[0]
      case Rep(cls, lo, hi) => MatchRep(ts, s, Span(cls, hi, s))
      case OptWord(w) =>
        if w <= s && Match(ts[1..], s[|w|..]).Some? then Some([w] + Match(ts[1..], s[|w|..]).value)
        else if Match(ts[1..], s).Some? then Some([""] + Match(ts[1..], s).value)
        else None
  }

  function MatchRep(ts: seq<Token>, s: string, k: nat): Option<seq<string>>
    requires ts != [] && ts[0].Rep? && k <= |s|
    decreases |ts|, k + 1
  {
    if k < ts[0].lo then None
    else if Match(ts[1..], s[k..]).Some? then Some([s[..k]] + Match(ts[1..], s[k..]).value)
    else if k == 0 then None
    else MatchRep(ts, s, k - 1)
  }

  /** `regex_search` over the whole of `s`: the first position with a match, and the match. */
  function Search(ts: seq<Token>, s: string): Option<(nat, seq<string>)>
    decreases |s|
  {
    if Match(ts, s).Some? then Some((0, Match(ts, s).value))
    else if s == "" then None
    else
      match Search(ts, s[1..])
      case Some((k, segs)) => Some((k + 1, segs))
      case None => None
  }

  predicate Accepts(t: Token, w: string) {
    match t
    case Rep(cls, lo, hi) => lo <= |w| && (hi.Some? ==> |w| <= hi.value) && AllIn(cls, w)
    case OptWord(word) => w == word || w == ""
  }

  /** The language: `segs` is a way to read a prefix of `s` as the tokens in order. */
  predicate Splits(ts: seq<Token>, s: string, segs: seq<string>)
    decreases |ts|
  {
    if ts == [] then segs == []
    else segs != [] && segs[0] <= s && Accepts(ts[0], segs[0]) && Splits(ts[1..], s[|segs[0]|..], segs[1..])
  }

  /** `a` takes at least as much as `b` at the first token where they differ in length. */
  predicate Greedier(a: seq<string>, b: seq<string>) {
    if a == [] || b == [] then a == b
    else |a[0]| > |b[0]| || (a[0] == b[0] && Greedier(a[1..], b[1..]))
  }

  lemma {:induction false} SpanIsLongest(cls: CharClass, hi: Option<nat>, s: string, other: seq<string>)
    ensures other != [] && other[0] <= s && AllIn(cls, other[0]) && (hi.Some? ==> |other[0]| <= hi.value) ==>
              |other[0]| <= Span(cls, hi, s)
  {
  }

  /** The backtracking matcher finds the greediest reading, and finds none only if there is none. */
  lemma {:induction false} MatchIsGreediest(ts: seq<Token>, s: string, other: seq<string>)
    ensures Match(ts, s).Some? ==> Splits(ts, s, Match(ts, s).value)
    ensures Splits(ts, s, other) ==> Match(ts, s).Some? && Greedier(Match(ts, s).value, other)
    decreases |ts|, |s| + 2
  {
    if ts != [] {
      match ts[0]
      case Rep(cls, lo, hi) =>
        SpanIsLongest(cls, hi, s, other);
        MatchRepIsGreediest(ts, s, Span(cls, hi, s), other);
      case OptWord(w) =>
        var rest := if other != [] then other[1..] else [];
        if w <= s {
          MatchIsGreediest(ts[1..], s[|w|..], rest);
        }
        MatchIsGreediest(ts[1..], s, rest);
    }
  }

  lemma {:induction false} MatchRepIsGreediest(ts: seq<Token>, s: string, k: nat, other: seq<string>)
    requires ts != [] && ts[0].Rep? && k <= |s| && Accepts(ts[0].(lo := 0), s[..k])
    ensures var r := MatchRep(ts, s, k); r.Some? ==> Splits(ts, s, r.value)
    ensures Splits(ts, s, other) && |other[0]| <= k
        ==> MatchRep(ts, s, k).Some? && Greedier(MatchRep(ts, s, k).value, other)
    decreases |ts|, k + 1
  {
    var rest := if other != [] then other[1..] else [];
    if k >= ts[0].lo {
      MatchIsGreediest(ts[1..], s[k..], rest);
      if Match(ts[1..], s[k..]).None? && k > 0 {
        assert AllIn(ts[0].cls, s[..k - 1]) by {
          assert forall i :: 0 <= i < k - 1 ==> s[..k - 1][i] == s[..k][i];
        }
        MatchRepIsGreediest(ts, s, k - 1, other);
      }
    }
  }

  /** The search is leftmost: no position before the one found can be read as the tokens at all, and when
      nothing is found no position can. */
  lemma {:induction false} SearchIsLeftmost(ts: seq<Token>, s: string, j: nat, other: seq<string>)
    requires j <= |s|
    ensures match Search(ts, s)
            case None => !Splits(ts, s[j..], other)
            case Some((k, segs)) => && k <= |s| && Splits(ts, s[k..], segs)
                                    && (j < k ==> !Splits(ts, s[j..], other))
                                    && (j == k && Splits(ts, s[j..], other) ==> Greedier(segs, other))
    decreases |s|
  {
    assert s[0..] == s;
    MatchIsGreediest(ts, s, other);
    if Match(ts, s).None? && s != "" {
      SearchIsLeftmost(ts, s[1..], if j > 0 then j - 1 else 0, other);
      assert j > 0 ==> s[1..][j - 1..] == s[j..];
      if Search(ts, s[1..]).Some? {
        var k := Search(ts, s[1..]).value.0;
        assert s[1..][k..] == s[k + 1..];
      }
    }
  }

  function Length(segs: seq<string>): nat {
    if segs == [] then 0 else |segs[0]| + Length(segs[1..])
  }

  lemma {:induction false} SplitsLength(ts: seq<Token>, s: string, segs: seq<string>)
    requires Splits(ts, s, segs)
    ensures |segs| == |ts| && Length(segs) <= |s|
    ensures ts != [] && ts[0].Rep? ==> ts[0].lo <= Length(segs)
    decreases |ts|
  {
    if ts != [] {
      SplitsLength(ts[1..], s[|segs[0]|..], segs[1..]);
    }
  }

  /** Where a match lies: inside the string, one substring a token. */
  lemma {:induction false} SearchBounds(ts: seq<Token>, s: string)
    requires ts != [] && ts[0].Rep?
    ensures match Search(ts, s)
            case None => true
            case Some((k, segs)) => |segs| == |ts| && k + Length(segs) <= |s| && ts[0].lo <= Length(segs)
  {
    SearchIsLeftmost(ts, s, 0, []);
    if Search(ts, s).Some? {
      var (k, segs) := Search(ts, s).value;
      SplitsLength(ts, s[k..], segs);
    }
  }

  lemma {:induction false} SpanAt(cls: CharClass, hi: Option<nat>, s: string, k: nat)
    requires k <= |s| && (hi.Some? ==> k <= hi.value)
    requires forall i :: 0 <= i < k ==> InClass(cls, s[i])
    requires k == |s| || !InClass(cls, s[k]) || hi == Some(k)
    ensures Span(cls, hi, s) == k
    decreases k
  {
    hide InClass;
    if k > 0 {
      SpanAt(cls, if hi.Some? then Some(hi.value - 1) else None, s[1..], k - 1);
    }
  }

  lemma {:induction false} SpanIs(cls: CharClass, hi: Option<nat>, w: string, rest: string)
    requires AllIn(cls, w) && (hi.Some? ==> |w| <= hi.value)
    requires rest == "" || !InClass(cls, rest[0]) || hi == Some(|w|)
    ensures Span(cls, hi, w + rest) == |w|
  {
    hide InClass, Span;
    SpanAt(cls, hi, w + rest, |w|);
  }

  /** One more token in front of a pattern that matches `rest`: when the longest run `w` can be taken, the
      matcher takes it without backtracking. */
  lemma {:induction false} Front(t: Token, ts: seq<Token>, all: seq<Token>, w: string, rest: string,
      segs: seq<string>, out: seq<string>)
    requires all == [t] + ts && out == [w] + segs
    requires t.Rep? && Accepts(t, w)
    requires rest == "" || !InClass(t.cls, rest[0]) || t.hi == Some(|w|)
    requires Match(ts, rest) == Some(segs)
    ensures Match(all, w + rest) == Some(out)
    ensures Length(out) == |w| + Length(segs)
  {
    SpanIs(t.cls, t.hi, w, rest);
    assert all[1..] == ts && out[1..] == segs;
    assert (w + rest)[|w|..] == rest && (w + rest)[..|w|] == w;
  }

  /** A repetition that may be empty takes nothing before a character outside its class. */
  lemma {:induction false} Skip(t: Token, ts: seq<Token>, all: seq<Token>, s: string, segs: seq<string>,
      out: seq<string>)
    requires all == [t] + ts && out == [""] + segs
    requires t.Rep? && t.lo == 0 && (s == "" || !InClass(t.cls, s[0]))
    requires Match(ts, s) == Some(segs)
    ensures Match(all, s) == Some(out)
    ensures Length(out) == Length(segs)
  {
  }

  lemma {:induction false} Nothing(s: string)
    ensures Match([], s) == Some([])
    ensures Length([]) == 0
  {
  }

  lemma {:induction false} NoDigit(ts: seq<Token>, s: string)
    requires ts != [] && ts[0] == Rep(Digits, 1, None)
    requires s == "" || !IsDigit(s[0])
    ensures Match(ts, s) == None
  {
  }

  /** A pattern that starts with a digit is not found in text without one in front of its match. */
  lemma {:induction false} SearchAfter(ts: seq<Token>, lead: string, s: string, segs: seq<string>)
    requires ts != [] && ts[0] == Rep(Digits, 1, None)
    requires forall i :: 0 <= i < |lead| ==> !IsDigit(lead[i])
    requires Match(ts, s) == Some(segs)
    ensures Search(ts, lead + s) == Some((|lead|, segs))
    decreases |lead|
  {
    if lead == "" {
      assert lead + s == s;
    } else {
      NoDigit(ts, lead + s);
      assert (lead + s)[1..] == lead[1..] + s;
      SearchAfter(ts, lead[1..], s, segs);
    }
  }
}
