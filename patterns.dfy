/** The regular expressions the scraper tests, without a general regex engine. Every one of
    them is an alternation of fixed-width patterns under the `i` flag, so each is written as a
    list of patterns whose atoms are a letter compared after ASCII case folding, `.` (any
    character but a line terminator) or `\d` (an ASCII digit). */
module Patterns {
  import opened Text

  datatype Atom = Char(c: char) | Dot | Digit

  type Pattern = seq<Atom>

  /** ASCII case folding, which is what the `i` flag does for the ASCII letters these
      patterns contain: no other character folds onto an ASCII letter. */
  function Lower(c: char): char {
    if 'A' <= c <= 'Z' then (c as int + 32) as char else c
  }

  predicate AtomMatches(a: Atom, c: char) {
    match a
    case Char(p) => Lower(c) == Lower(p)
    case Dot => !IsLineTerminator(c)
    case Digit => IsDigit(c)
  }

  /** `p` matches the characters of `s` from index `i` on. */
  predicate MatchesAt(s: string, i: int, p: Pattern) {
    0 <= i && i + |p| <= |s| && forall k :: 0 <= k < |p| ==> AtomMatches(p[k], s[i + k])
  }

  /** RegExp.prototype.test for one alternative: it matches somewhere in `s`. */
  predicate Search(s: string, p: Pattern) {
    exists i :: 0 <= i <= |s| && MatchesAt(s, i, p)
  }

  /** RegExp.prototype.test for an alternation `p0|p1|...`. */
  predicate Test(s: string, alternatives: seq<Pattern>) {
    exists k :: 0 <= k < |alternatives| && Search(s, alternatives[k])
  }

  /** The letters of `w`, each matched case-insensitively. */
  function Lit(w: string): (p: Pattern)
    ensures |p| == |w|
    ensures forall k :: 0 <= k < |w| ==> p[k] == Char(w[k])
  {
    seq(|w|, k requires 0 <= k < |w| => Char(w[k]))
  }

  /** A literal matches at `i` exactly when the next |w| characters spell `w` up to the case
      of ASCII letters. */
  lemma LitMatchesAt(s: string, i: int, w: string)
    ensures MatchesAt(s, i, Lit(w)) <==>
              0 <= i && i + |w| <= |s| && forall k :: 0 <= k < |w| ==> Lower(s[i + k]) == Lower(w[k])
  {
    if 0 <= i && i + |w| <= |s| {
      assert forall k :: 0 <= k < |w| ==> (AtomMatches(Lit(w)[k], s[i + k]) <==> Lower(s[i + k]) == Lower(w[k]));
    }
  }

  // The expressions of src/services/githubJobScraper.ts, in the order the code tests them.

  /** `/intern|internship/i` */
  const InternRe: seq<Pattern> := [Lit("intern"), Lit("internship")]
  /** `/software|swe|engineer/i` */
  const SoftwareRe: seq<Pattern> := [Lit("software"), Lit("swe"), Lit("engineer")]
  /** `/full.?stack/i`: with or without one character between the words. */
  const FullStackRe: seq<Pattern> := [Lit("full") + [Dot] + Lit("stack"), Lit("fullstack")]
  /** `/frontend|front.end|ui|react/i` */
  const FrontendRe: seq<Pattern> := [Lit("frontend"), Lit("front") + [Dot] + Lit("end"), Lit("ui"), Lit("react")]
  /** `/backend|back.end|api|server/i` */
  const BackendRe: seq<Pattern> := [Lit("backend"), Lit("back") + [Dot] + Lit("end"), Lit("api"), Lit("server")]
  /** `/mobile|ios|android/i` */
  const MobileRe: seq<Pattern> := [Lit("mobile"), Lit("ios"), Lit("android")]
  /** `/data|analytics/i` */
  const DataRe: seq<Pattern> := [Lit("data"), Lit("analytics")]
  /** `/remote/i` */
  const RemoteRe: seq<Pattern> := [Lit("remote")]
  /** `/machine.learning|ml|ai/i` */
  const AiMlRe: seq<Pattern> := [Lit("machine") + [Dot] + Lit("learning"), Lit("ml"), Lit("ai")]
  /** `/\d+k/i`: some digit directly followed by `k` or `K`. */
  const SalaryRe: seq<Pattern> := [[Digit, Char('k')]]

  lemma LitAppend(a: string, b: string)
    ensures Lit(a + b) == Lit(a) + Lit(b)
  {
    assert forall k :: 0 <= k < |a + b| ==> Lit(a + b)[k] == (Lit(a) + Lit(b))[k];
  }

  /** A match of `p + q` starts with a match of `p`. */
  lemma SearchPrefixOfPattern(s: string, p: Pattern, q: Pattern)
    requires Search(s, p + q)
    ensures Search(s, p)
  {
    var i :| 0 <= i <= |s| && MatchesAt(s, i, p + q);
    assert forall k :: 0 <= k < |p| ==> (p + q)[k] == p[k];
    assert MatchesAt(s, i, p);
  }

  /** The `internship` alternative adds nothing: a title is an internship title exactly when
      it contains `intern` in any letter case. */
  lemma InternMeansContainsIntern(s: string)
    ensures Test(s, InternRe) <==> Search(s, Lit("intern"))
  {
    assert "internship" == "intern" + "ship";
    LitAppend("intern", "ship");
    if Search(s, Lit("internship")) {
      SearchPrefixOfPattern(s, Lit("intern"), Lit("ship"));
    }
    assert InternRe[0] == Lit("intern");
  }

  /** An exact occurrence of a word is in particular a case-insensitive one. */
  lemma ExactOccurrenceMatches(s: string, w: string)
    requires Contains(s, w)
    ensures Search(s, Lit(w))
  {
    ContainsIff(s, w);
    var i :| OccursAt(s, w, i);
    forall k | 0 <= k < |w| ensures AtomMatches(Lit(w)[k], s[i + k]) {
      assert s[i + k] == s[i..i + |w|][k];
    }
    assert MatchesAt(s, i, Lit(w));
  }
}
