/**
 * The fragment of ECMAScript regular expressions that the date patterns of
 * the sorter use: a pattern anchored with `^`, without an end anchor, made of
 * literal characters and greedy repetitions of one character class (`\d{4}`,
 * `\d{1,2}`, `\s+`, `[A-Za-zА-Яа-яЁё\.]+`), some of them capture groups.
 *
 * `Backtrack` is the reference semantics: a greedy quantifier tries its
 * longest run first and gives characters back one at a time until the rest
 * of the pattern matches. `Match` is the matcher the model uses: every
 * repetition takes its longest run and never gives back. `MatchIsBacktrack`
 * proves the two agree on every pattern in which no repetition is followed
 * by something that could start with a character of its own class, which
 * holds for all the sorter's patterns.
 */
module Regex {
  import opened Wrappers
  import opened Text

  /** `\s`: the ECMAScript WhiteSpace and LineTerminator characters. */
  predicate IsSpace(c: char) {
    c == '\t' || c == '\n' || c == '\U{000B}' || c == '\U{000C}' || c == '\r' || c == ' '
    || c == '\U{00A0}' || c == '\U{1680}' || ('\U{2000}' <= c <= '\U{200A}')
    || c == '\U{2028}' || c == '\U{2029}' || c == '\U{202F}' || c == '\U{205F}'
    || c == '\U{3000}' || c == '\U{FEFF}'
  }

  /** The month-word class `[A-Za-zА-Яа-яЁё\.]`: ASCII letters, the Cyrillic
      letters U+0410..U+044F, Ё, ё and the full stop. */
  predicate IsMonthLetter(c: char) {
    ('A' <= c <= 'Z') || ('a' <= c <= 'z') || ('\U{0410}' <= c <= '\U{044F}')
    || c == '\U{0401}' || c == '\U{0451}' || c == '.'
  }

  datatype CharClass = Digit | MonthLetter | Space

  predicate InClass(c: char, k: CharClass) {
    match k
    case Digit => IsDigit(c)
    case MonthLetter => IsMonthLetter(c)
    case Space => IsSpace(c)
  }

  lemma ClassesDisjoint(c: char, k1: CharClass, k2: CharClass)
    requires k1 != k2 && InClass(c, k1)
    ensures !InClass(c, k2)
  {
  }

  /** A literal character, or a character class repeated greedily at least
      `lo` and at most `hi` times (unbounded when `hi` is None), captured as a
      group when `capture` holds. */
  datatype Piece = Lit(c: char) | Rep(k: CharClass, lo: nat, hi: Option<nat>, capture: bool)

  type Pattern = seq<Piece>

  /** Length of the run of class-`k` characters starting at `i`. */
  function Run(s: string, i: nat, k: CharClass): (n: nat)
    requires i <= |s|
    ensures i + n <= |s|
    decreases |s| - i
  {
    if i < |s| && InClass(s[i], k) then 1 + Run(s, i + 1, k) else 0
  }

  /** The run found is a run of class-`k` characters that cannot be extended. */
  lemma {:induction false} RunMaximal(s: string, i: nat, k: CharClass)
    requires i <= |s|
    ensures forall j :: i <= j < i + Run(s, i, k) ==> InClass(s[j], k)
    ensures i + Run(s, i, k) < |s| ==> !InClass(s[i + Run(s, i, k)], k)
    decreases |s| - i
  {
    if i < |s| && InClass(s[i], k) {
      RunMaximal(s, i + 1, k);
    }
  }

  /** The most characters a repetition bounded by `hi` takes out of a run of `n`. */
  function Cap(n: nat, hi: Option<nat>): (m: nat)
    ensures m <= n
    ensures hi.None? ==> m == n
    ensures hi.Some? ==> m == if n <= hi.value then n else hi.value
  {
    match hi
    case None => n
    case Some(h) => if n <= h then n else h
  }

  /** `t` is a string a repetition `r` may consume: its length is within
      the bounds and all its characters are in the class. */
  predicate Spans(t: string, r: Piece)
    requires r.Rep?
  {
    && r.lo <= |t|
    && (r.hi.Some? ==> |t| <= r.hi.value)
    && forall j :: 0 <= j < |t| ==> InClass(t[j], r.k)
  }

  /** The capture list `caps` has one entry per capturing repetition of `p`,
      in order, each a string that repetition may consume. */
  predicate Fits(caps: seq<string>, p: Pattern)
    decreases |p|
  {
    if p == [] then caps == []
    else match p[0]
      case Lit(_) => Fits(caps, p[1..])
      case Rep(_, _, _, capture) =>
        if capture then |caps| >= 1 && Spans(caps[0], p[0]) && Fits(caps[1..], p[1..])
        else Fits(caps, p[1..])
  }

  /** Match `p` at position `i` of `s`, every repetition taking its longest
      run; the result is the list of captured groups. Only a prefix of
      `s[i..]` has to match. */
  function Match(s: string, i: nat, p: Pattern): (r: Option<seq<string>>)
    requires i <= |s|
    ensures r.Some? ==> Fits(r.value, p)
    decreases |p|
  {
    if p == [] then Some([])
    else match p[0]
      case Lit(c) =>
        if i < |s| && s[i] == c then Match(s, i + 1, p[1..]) else None
      case Rep(k, lo, hi, capture) =>
        var n := Cap(Run(s, i, k), hi);
        if n < lo then None
        else match Match(s, i + n, p[1..])
          case None => None
          case Some(caps) =>
            RunMaximal(s, i, k);
            assert Spans(s[i..i + n], p[0]);
            Some(if capture then [s[i..i + n]] + caps else caps)
  }

  /** Reference semantics: backtracking as an ECMAScript engine does it. */
  function Backtrack(s: string, i: nat, p: Pattern): Option<seq<string>>
    requires i <= |s|
    decreases |p|, 0
  {
    if p == [] then Some([])
    else match p[0]
      case Lit(c) =>
        if i < |s| && s[i] == c then Backtrack(s, i + 1, p[1..]) else None
      case Rep(k, lo, hi, capture) =>
        TryLengths(s, i, p[0], Cap(Run(s, i, k), hi), p[1..])
  }

  /** Let repetition `r` consume `n` characters at `i` and try the rest; on
      failure give one character back, down to `r.lo`. */
  function TryLengths(s: string, i: nat, r: Piece, n: nat, rest: Pattern): Option<seq<string>>
    requires r.Rep? && i + n <= |s|
    decreases |rest|, n + 1
  {
    if n < r.lo then None
    else match Backtrack(s, i + n, rest)
      case Some(caps) => Some(if r.capture then [s[i..i + n]] + caps else caps)
      case None => if n == 0 then None else TryLengths(s, i, r, n - 1, rest)
  }

  /** No character of class `k` can begin a match of `q`. */
  predicate Excludes(q: Piece, k: CharClass) {
    match q
    case Lit(c) => !InClass(c, k)
    case Rep(k2, lo, _, _) => lo >= 1 && k2 != k
  }

  /** Every repetition is followed by the end of the pattern or by a piece
      that cannot start with a character of the repetition's own class. */
  predicate WellFormed(p: Pattern) {
    forall j :: 0 <= j < |p| - 1 && p[j].Rep? ==> Excludes(p[j + 1], p[j].k)
  }

  lemma StartFails(s: string, j: nat, rest: Pattern, k: CharClass)
    requires j < |s| && InClass(s[j], k)
    requires rest != [] && Excludes(rest[0], k)
    ensures Backtrack(s, j, rest) == None
  {
    match rest[0]
    case Lit(c) =>
    case Rep(k2, lo, hi, capture) =>
      ClassesDisjoint(s[j], k, k2);
      assert Run(s, j, k2) == 0;
  }

  lemma {:induction false} ShorterFail(s: string, i: nat, r: Piece, n: nat, rest: Pattern)
    requires r.Rep? && i <= |s|
    requires n < Run(s, i, r.k)
    requires rest != [] && Excludes(rest[0], r.k)
    ensures TryLengths(s, i, r, n, rest) == None
  {
    if n >= r.lo {
      RunMaximal(s, i, r.k);
      StartFails(s, i + n, rest, r.k);
      if n > 0 {
        ShorterFail(s, i, r, n - 1, rest);
      }
    }
  }

  lemma RestWellFormed(p: Pattern)
    requires p != [] && WellFormed(p)
    ensures WellFormed(p[1..])
  {
    var rest := p[1..];
    forall j | 0 <= j < |rest| - 1 && rest[j].Rep?
      ensures Excludes(rest[j + 1], rest[j].k)
    {
      assert rest[j] == p[j + 1] && rest[j + 1] == p[j + 2];
    }
  }

  /** On a well-formed pattern, taking the longest run is what backtracking
      ends up with. */
  lemma {:induction false} MatchIsBacktrack(s: string, i: nat, p: Pattern)
    requires i <= |s| && WellFormed(p)
    ensures Match(s, i, p) == Backtrack(s, i, p)
    decreases |p|
  {
    if p != [] {
      RestWellFormed(p);
      match p[0]
      case Lit(c) =>
        if i < |s| && s[i] == c {
          MatchIsBacktrack(s, i + 1, p[1..]);
        }
      case Rep(k, lo, hi, capture) =>
        var n := Cap(Run(s, i, k), hi);
        if n >= lo {
          MatchIsBacktrack(s, i + n, p[1..]);
          RepAgrees(s, i, p, n);
        }
    }
  }

  /** The repetition step of `MatchIsBacktrack`, once the rest agrees. */
  lemma RepAgrees(s: string, i: nat, p: Pattern, n: nat)
    requires i <= |s| && WellFormed(p) && p != [] && p[0].Rep?
    requires n == Cap(Run(s, i, p[0].k), p[0].hi) && n >= p[0].lo
    requires Match(s, i + n, p[1..]) == Backtrack(s, i + n, p[1..])
    ensures Match(s, i, p) == Backtrack(s, i, p)
  {
    var rest := p[1..];
    if Backtrack(s, i + n, rest).None? && n > 0 {
      assert rest != [];
      assert Excludes(rest[0], p[0].k) by { assert p[1] == rest[0]; }
      ShorterFail(s, i, p[0], n - 1, rest);
    }
  }

  /** The three-group patterns of the sorter: `a x b x c`. */
  function Triple(a: Piece, x: Piece, b: Piece, c: Piece): Pattern {
    [a, x, b, x, c]
  }

  predicate Group(r: Piece) { r.Rep? && r.capture }

  lemma FitsGroupStep(caps: seq<string>, g: Piece, rest: Pattern)
    requires Group(g)
    ensures Fits(caps, [g] + rest) <==> |caps| >= 1 && Spans(caps[0], g) && Fits(caps[1..], rest)
  {
    assert ([g] + rest)[0] == g && ([g] + rest)[1..] == rest;
  }

  lemma FitsOtherStep(caps: seq<string>, x: Piece, rest: Pattern)
    requires !Group(x)
    ensures Fits(caps, [x] + rest) <==> Fits(caps, rest)
  {
    assert ([x] + rest)[0] == x && ([x] + rest)[1..] == rest;
  }

  lemma TripleFits(caps: seq<string>, a: Piece, x: Piece, b: Piece, c: Piece)
    requires Group(a) && Group(b) && Group(c) && !Group(x)
    requires Fits(caps, Triple(a, x, b, c))
    ensures |caps| == 3 && Spans(caps[0], a) && Spans(caps[1], b) && Spans(caps[2], c)
  {
    TripleAsCons(a, x, b, c);
    FitsGroupStep(caps, a, [x] + ([b] + ([x] + ([c] + []))));
    FitsOtherStep(caps[1..], x, [b] + ([x] + ([c] + [])));
    FitsGroupStep(caps[1..], b, [x] + ([c] + []));
    FitsOtherStep(caps[2..], x, [c] + []);
    assert caps[1..][1..] == caps[2..];
    FitsGroupStep(caps[2..], c, []);
    assert caps[2..][1..] == caps[3..];
  }

  lemma TripleWellFormed(a: Piece, x: Piece, b: Piece, c: Piece)
    requires a.Rep? && b.Rep?
    requires Excludes(x, a.k) && Excludes(x, b.k)
    requires x.Rep? ==> Excludes(b, x.k) && Excludes(c, x.k)
    ensures WellFormed(Triple(a, x, b, c))
  {
  }

  /** How `Match` steps over a repetition that takes `n` characters. */
  lemma MatchRepStep(s: string, i: nat, r: Piece, rest: Pattern, n: nat)
    requires r.Rep? && i <= |s|
    requires n == Cap(Run(s, i, r.k), r.hi) && r.lo <= n
    ensures Match(s, i, [r] + rest) ==
      match Match(s, i + n, rest)
      case None => None
      case Some(caps) => Some(if r.capture then [s[i..i + n]] + caps else caps)
  {
    assert ([r] + rest)[0] == r && ([r] + rest)[1..] == rest;
  }

  lemma MatchLitStep(s: string, i: nat, c: char, rest: Pattern)
    requires i < |s| && s[i] == c
    ensures Match(s, i, [Lit(c)] + rest) == Match(s, i + 1, rest)
  {
    assert ([Lit(c)] + rest)[0] == Lit(c) && ([Lit(c)] + rest)[1..] == rest;
  }

  lemma MatchLitFails(s: string, i: nat, c: char, rest: Pattern)
    requires i <= |s| && (i == |s| || s[i] != c)
    ensures Match(s, i, [Lit(c)] + rest) == None
  {
    assert ([Lit(c)] + rest)[0] == Lit(c);
  }

  lemma MatchRepFails(s: string, i: nat, r: Piece, rest: Pattern)
    requires r.Rep? && i <= |s|
    requires Cap(Run(s, i, r.k), r.hi) < r.lo
    ensures Match(s, i, [r] + rest) == None
  {
    assert ([r] + rest)[0] == r;
  }

  /** A run is exactly the class characters up to the first one outside it. */
  lemma {:induction false} RunIs(s: string, i: nat, k: CharClass, n: nat)
    requires i + n <= |s|
    requires forall j :: i <= j < i + n ==> InClass(s[j], k)
    ensures Run(s, i, k) >= n
    ensures i + n == |s| || !InClass(s[i + n], k) ==> Run(s, i, k) == n
    decreases n
  {
    if n > 0 {
      RunIs(s, i + 1, k, n - 1);
    }
  }

  lemma TripleAsCons(a: Piece, x: Piece, b: Piece, c: Piece)
    ensures Triple(a, x, b, c) == [a] + ([x] + ([b] + ([x] + ([c] + []))))
  {
  }

  /** Separator `x` consumes exactly `u`: the literal itself, or a
      non-empty whitespace run for `\s+`. */
  predicate SepText(x: Piece, u: string) {
    || (x.Lit? && u == [x.c])
    || (x == Rep(Space, 1, None, false) && |u| >= 1 && forall j :: 0 <= j < |u| ==> IsSpace(u[j]))
  }

  /** A repetition takes exactly `t` at `i` when `t` is all it can take. */
  lemma CapIs(s: string, i: nat, r: Piece, t: string, tail: string)
    requires r.Rep? && i <= |s| && s[i..] == t + tail && Spans(t, r)
    requires tail == [] || !InClass(tail[0], r.k) || r.hi == Some(|t|)
    ensures Cap(Run(s, i, r.k), r.hi) == |t|
  {
    forall j | i <= j < i + |t| ensures InClass(s[j], r.k) {
      assert s[j] == s[i..][j - i] == t[j - i];
    }
    if tail != [] {
      assert s[i + |t|] == s[i..][|t|] == tail[0];
    }
    RunIs(s, i, r.k, |t|);
  }

  lemma RepConsumes(s: string, i: nat, r: Piece, t: string, tail: string, rest: Pattern)
    requires r.Rep? && i <= |s| && s[i..] == t + tail && Spans(t, r)
    requires tail == [] || !InClass(tail[0], r.k) || r.hi == Some(|t|)
    ensures i + |t| <= |s| && s[i + |t|..] == tail
    ensures Match(s, i + |t|, rest).None? ==> Match(s, i, [r] + rest).None?
    ensures Match(s, i + |t|, rest).Some? ==>
      Match(s, i, [r] + rest) == Some(if r.capture then [t] + Match(s, i + |t|, rest).value
                                      else Match(s, i + |t|, rest).value)
  {
    assert s[i..][..|t|] == t;
    assert s[i..i + |t|] == t;
    assert s[i + |t|..] == s[i..][|t|..] == tail;
    CapIs(s, i, r, t, tail);
    MatchRepStep(s, i, r, rest, |t|);
  }

  lemma SepConsumes(s: string, i: nat, x: Piece, u: string, tail: string, rest: Pattern)
    requires SepText(x, u) && i <= |s| && s[i..] == u + tail
    requires x.Rep? ==> tail != [] && !InClass(tail[0], x.k)
    ensures i + |u| <= |s| && s[i + |u|..] == tail
    ensures Match(s, i, [x] + rest) == Match(s, i + |u|, rest)
  {
    assert s[i + |u|..] == s[i..][|u|..] == tail;
    if x.Lit? {
      assert s[i] == s[i..][0] == u[0];
      MatchLitStep(s, i, x.c, rest);
    } else {
      assert Spans(u, x);
      RepConsumes(s, i, x, u, tail, rest);
    }
  }

  /** `Match` on a three-group pattern, for a text laid out as the pattern
      describes. */
  lemma MatchTripleSome(s: string, a: Piece, x: Piece, b: Piece, c: Piece,
                        t0: string, u1: string, t1: string, u2: string, t2: string, rest: string)
    requires Group(a) && Group(b) && Group(c)
    requires s == t0 + (u1 + (t1 + (u2 + (t2 + rest))))
    requires Spans(t0, a) && Spans(t1, b) && Spans(t2, c)
    requires SepText(x, u1) && SepText(x, u2)
    requires Excludes(x, a.k) && Excludes(x, b.k)
    requires x.Rep? ==> Excludes(b, x.k) && Excludes(c, x.k)
    requires rest == [] || !InClass(rest[0], c.k) || c.hi == Some(|t2|)
    ensures Match(s, 0, Triple(a, x, b, c)) == Some([t0, t1, t2])
  {
    var tail2 := t1 + (u2 + (t2 + rest));
    var tail1 := u1 + tail2;
    SepStartsOutside(x, u1, tail2, a.k);
    assert s[0..] == t0 + tail1;
    var r1: Pattern := [x] + ([b] + ([x] + ([c] + [])));
    RepConsumes(s, 0, a, t0, tail1, r1);
    MatchTail(s, |t0|, x, b, c, u1, t1, u2, t2, rest);
    assert Match(s, |t0|, r1) == Some([t1, t2]);
    assert Match(s, 0, [a] + r1) == Some([t0] + [t1, t2]);
    assert [t0] + [t1, t2] == [t0, t1, t2];
    TripleAsCons(a, x, b, c);
  }

  /** The part of `MatchTripleSome` after the first group. */
  lemma MatchTail(s: string, i: nat, x: Piece, b: Piece, c: Piece,
                  u1: string, t1: string, u2: string, t2: string, rest: string)
    requires Group(b) && Group(c) && i <= |s|
    requires s[i..] == u1 + (t1 + (u2 + (t2 + rest)))
    requires Spans(t1, b) && Spans(t2, c)
    requires SepText(x, u1) && SepText(x, u2) && Excludes(x, b.k)
    requires x.Rep? ==> Excludes(b, x.k) && Excludes(c, x.k)
    requires rest == [] || !InClass(rest[0], c.k) || c.hi == Some(|t2|)
    ensures Match(s, i, [x] + ([b] + ([x] + ([c] + [])))) == Some([t1, t2])
  {
    SepStartsOutside(x, u2, t2 + rest, b.k);
    var p3: Pattern := [x] + ([c] + []);
    SepGroup(s, i, x, b, u1, t1, u2 + (t2 + rest), p3);
    var j := i + |u1| + |t1|;
    var e: Pattern := [];
    SepGroup(s, j, x, c, u2, t2, rest, e);
    assert Match(s, j + |u2| + |t2|, e) == Some([]);
    assert Match(s, j, p3) == Some([t2] + []);
    assert [t1] + ([t2] + []) == [t1, t2];
  }

  /** A separator followed by a capturing group, for a text laid out as
      they describe: the group captures exactly `t`. */
  lemma SepGroup(s: string, i: nat, x: Piece, g: Piece, u: string, t: string,
                 tail: string, rest: Pattern)
    requires Group(g) && i <= |s|
    requires s[i..] == u + (t + tail)
    requires Spans(t, g) && SepText(x, u)
    requires x.Rep? ==> Excludes(g, x.k)
    requires tail == [] || !InClass(tail[0], g.k) || g.hi == Some(|t|)
    ensures i + |u| + |t| <= |s| && s[i + |u| + |t|..] == tail
    ensures Match(s, i + |u| + |t|, rest).Some? ==>
      Match(s, i, [x] + ([g] + rest)) == Some([t] + Match(s, i + |u| + |t|, rest).value)
  {
    if x.Rep? {
      GroupStartsOutside(g, t, tail, x.k);
      SepConsumes(s, i, x, u, t + tail, [g] + rest);
      GroupConsumes(s, i + |u|, g, t, tail, rest);
    } else {
      SepConsumes(s, i, x, u, t + tail, [g] + rest);
      GroupConsumes(s, i + |u|, g, t, tail, rest);
    }
  }

  /** A capturing group takes exactly `t` and the rest continues after it. */
  lemma GroupConsumes(s: string, k: nat, g: Piece, t: string, tail: string, rest: Pattern)
    requires Group(g) && k <= |s| && s[k..] == t + tail && Spans(t, g)
    requires tail == [] || !InClass(tail[0], g.k) || g.hi == Some(|t|)
    ensures k + |t| <= |s| && s[k + |t|..] == tail
    ensures Match(s, k + |t|, rest).Some? ==>
      Match(s, k, [g] + rest) == Some([t] + Match(s, k + |t|, rest).value)
  {
    RepConsumes(s, k, g, t, tail, rest);
  }

  /** A separator followed by a capturing group fails when what follows
      the group fails. */
  lemma SepGroupNone(s: string, i: nat, x: Piece, g: Piece, u: string, t: string,
                     tail: string, rest: Pattern)
    requires Group(g) && i <= |s|
    requires s[i..] == u + (t + tail)
    requires Spans(t, g) && SepText(x, u)
    requires x.Rep? ==> Excludes(g, x.k)
    requires tail == [] || !InClass(tail[0], g.k) || g.hi == Some(|t|)
    ensures i + |u| + |t| <= |s| && s[i + |u| + |t|..] == tail
    ensures Match(s, i + |u| + |t|, rest).None? ==> Match(s, i, [x] + ([g] + rest)).None?
  {
    if x.Rep? {
      GroupStartsOutside(g, t, tail, x.k);
    }
    SepConsumes(s, i, x, u, t + tail, [g] + rest);
    GroupFails(s, i + |u|, g, t, tail, rest);
  }

  /** A capturing group that takes exactly `t` fails when the rest fails. */
  lemma GroupFails(s: string, k: nat, g: Piece, t: string, tail: string, rest: Pattern)
    requires Group(g) && k <= |s| && s[k..] == t + tail && Spans(t, g)
    requires tail == [] || !InClass(tail[0], g.k) || g.hi == Some(|t|)
    ensures k + |t| <= |s| && s[k + |t|..] == tail
    ensures Match(s, k + |t|, rest).None? ==> Match(s, k, [g] + rest).None?
  {
    RepConsumes(s, k, g, t, tail, rest);
  }

  lemma SepStartsOutside(x: Piece, u: string, tail: string, k: CharClass)
    requires SepText(x, u) && Excludes(x, k)
    ensures u + tail != [] && !InClass((u + tail)[0], k)
  {
    assert (u + tail)[0] == u[0];
    if x.Rep? {
      ClassesDisjoint(u[0], Space, k);
    }
  }

  lemma GroupStartsOutside(g: Piece, t: string, tail: string, k: CharClass)
    requires g.Rep? && Spans(t, g) && Excludes(g, k)
    ensures t + tail != [] && !InClass((t + tail)[0], k)
  {
    assert (t + tail)[0] == t[0];
    ClassesDisjoint(t[0], g.k, k);
  }

  /** `Match` of a three-group pattern fails when the text does not start
      with a character of the first group. */
  lemma MatchTripleNoStart(s: string, a: Piece, x: Piece, b: Piece, c: Piece)
    requires a.Rep? && a.lo >= 1 && (s == [] || !InClass(s[0], a.k))
    ensures Match(s, 0, Triple(a, x, b, c)) == None
  {
    assert Run(s, 0, a.k) == 0;
    MatchRepFails(s, 0, a, [x] + ([b] + ([x] + ([c] + []))));
    TripleAsCons(a, x, b, c);
  }

  /** `Match` of a three-group pattern with a literal separator fails when
      the first group is followed by anything but that literal. */
  lemma MatchTripleNoSep(s: string, a: Piece, x: Piece, b: Piece, c: Piece, t0: string, rest: string)
    requires Group(a) && x.Lit?
    requires s == t0 + rest && Spans(t0, a)
    requires rest == [] || !InClass(rest[0], a.k) || a.hi == Some(|t0|)
    requires rest == [] || rest[0] != x.c
    ensures Match(s, 0, Triple(a, x, b, c)) == None
  {
    var r2: Pattern := [b] + ([x] + ([c] + []));
    assert s[0..] == t0 + rest;
    RepConsumes(s, 0, a, t0, rest, [x] + r2);
    if rest != [] {
      assert s[|t0|] == s[|t0|..][0] == rest[0];
    }
    MatchLitFails(s, |t0|, x.c, r2);
    TripleAsCons(a, x, b, c);
  }

  /** A run of class-`k` characters that ends where `t` ends has length `|t|`. */
  lemma RunExact(s: string, i: nat, k: CharClass, t: string, tail: string)
    requires i <= |s| && s[i..] == t + tail
    requires forall j :: 0 <= j < |t| ==> InClass(t[j], k)
    requires tail == [] || !InClass(tail[0], k)
    ensures Run(s, i, k) == |t|
  {
    forall j | i <= j < i + |t| ensures InClass(s[j], k) {
      assert s[j] == s[i..][j - i] == t[j - i];
    }
    if tail != [] {
      assert s[i + |t|] == s[i..][|t|] == tail[0];
    }
    RunIs(s, i, k, |t|);
  }

  /** A three-group pattern fails when its first group needs more
      characters than the run of its class at the start. */
  lemma MatchTripleShortFirst(s: string, a: Piece, x: Piece, b: Piece, c: Piece, t0: string, rest: string)
    requires a.Rep? && s == t0 + rest && |t0| < a.lo
    requires forall j :: 0 <= j < |t0| ==> InClass(t0[j], a.k)
    requires rest == [] || !InClass(rest[0], a.k)
    ensures Match(s, 0, Triple(a, x, b, c)) == None
  {
    assert s[0..] == t0 + rest;
    RunExact(s, 0, a.k, t0, rest);
    MatchRepFails(s, 0, a, [x] + ([b] + ([x] + ([c] + []))));
    TripleAsCons(a, x, b, c);
  }

  /** `Match` of a three-group pattern fails when the text is laid out as
      the pattern describes except that the last group has too few
      characters of its class. */
  lemma MatchTripleShortLast(s: string, a: Piece, x: Piece, b: Piece, c: Piece,
                             t0: string, u1: string, t1: string, u2: string, t2: string, rest: string)
    requires Group(a) && Group(b) && c.Rep?
    requires s == t0 + (u1 + (t1 + (u2 + (t2 + rest))))
    requires Spans(t0, a) && Spans(t1, b)
    requires SepText(x, u1) && SepText(x, u2)
    requires Excludes(x, a.k) && Excludes(x, b.k)
    requires x.Rep? ==> Excludes(b, x.k) && c.k != x.k
    requires 1 <= |t2| < c.lo && forall j :: 0 <= j < |t2| ==> InClass(t2[j], c.k)
    requires rest == [] || !InClass(rest[0], c.k)
    ensures Match(s, 0, Triple(a, x, b, c)) == None
  {
    var tail2 := t1 + (u2 + (t2 + rest));
    var tail1 := u1 + tail2;
    SepStartsOutside(x, u1, tail2, a.k);
    assert s[0..] == t0 + tail1;
    var r1: Pattern := [x] + ([b] + ([x] + ([c] + [])));
    RepConsumes(s, 0, a, t0, tail1, r1);
    TailNone(s, |t0|, x, b, c, u1, t1, u2, t2, rest);
    TripleAsCons(a, x, b, c);
  }

  lemma TailNone(s: string, i: nat, x: Piece, b: Piece, c: Piece,
                 u1: string, t1: string, u2: string, t2: string, rest: string)
    requires Group(b) && c.Rep? && i <= |s|
    requires s[i..] == u1 + (t1 + (u2 + (t2 + rest)))
    requires Spans(t1, b) && SepText(x, u1) && SepText(x, u2) && Excludes(x, b.k)
    requires x.Rep? ==> Excludes(b, x.k) && c.k != x.k
    requires 1 <= |t2| < c.lo && forall j :: 0 <= j < |t2| ==> InClass(t2[j], c.k)
    requires rest == [] || !InClass(rest[0], c.k)
    ensures Match(s, i, [x] + ([b] + ([x] + ([c] + [])))) == None
  {
    SepStartsOutside(x, u2, t2 + rest, b.k);
    var p3: Pattern := [x] + ([c] + []);
    SepGroupNone(s, i, x, b, u1, t1, u2 + (t2 + rest), p3);
    ShortLastGroup(s, i + |u1| + |t1|, x, c, u2, t2, rest);
  }

  lemma ShortLastGroup(s: string, j: nat, x: Piece, c: Piece, u2: string, t2: string, rest: string)
    requires c.Rep? && j <= |s| && s[j..] == u2 + (t2 + rest)
    requires SepText(x, u2) && (x.Rep? ==> c.k != x.k)
    requires 1 <= |t2| < c.lo && forall q :: 0 <= q < |t2| ==> InClass(t2[q], c.k)
    requires rest == [] || !InClass(rest[0], c.k)
    ensures Match(s, j, [x] + ([c] + [])) == None
  {
    if x.Rep? {
      assert (t2 + rest)[0] == t2[0];
      ClassesDisjoint(t2[0], c.k, x.k);
    }
    var pc: Pattern := [c] + [];
    SepConsumes(s, j, x, u2, t2 + rest, pc);
    RunExact(s, j + |u2|, c.k, t2, rest);
    MatchRepFails(s, j + |u2|, c, []);
  }
}
