/** What the filter scans decide, in terms of the topics a filter matches. */
module TopicTheorems {
  import opened Text
  import opened Topics

  // ------------------------------------------------------------- text and levels

  lemma {:induction false} Utf8Concat(a: string, b: string)
    ensures Utf8Length(a + b) == Utf8Length(a) + Utf8Length(b)
  {
    if a == "" {
      assert a + b == b;
    } else {
      assert (a + b)[1..] == a[1..] + b;
      Utf8Concat(a[1..], b);
    }
  }

  /** Bytes of all levels, counting one separator for each. */
  function Size(levels: seq<string>): nat {
    if levels == [] then 0 else Utf8Length(levels[0]) + 1 + Size(levels[1..])
  }

  lemma {:induction false} SizeOfJoin(levels: seq<string>)
    requires levels != []
    ensures Utf8Length(Join('/', levels)) + 1 == Size(levels)
  {
    if |levels| > 1 {
      SizeOfJoin(levels[1..]);
      Utf8Concat(levels[0] + "/", Join('/', levels[1..]));
      Utf8Concat(levels[0], "/");
    }
  }

  // ----------------------------------------------------------- matching, stepwise

  lemma MatchStep(f: seq<string>, t: seq<string>)
    requires f != [] && f[0] != "#"
    ensures MatchesLevels(f, t) <==>
      t != [] && LevelMatches(f[0], t[0]) && MatchesLevels(f[1..], t[1..])
  {
    if t != [] {
      var f', t' := f[1..], t[1..];
      assert forall i :: 0 <= i < |f'| ==> f'[i] == f[i + 1];
      assert forall i :: 0 <= i < |t'| ==> t'[i] == t[i + 1];
      if LevelMatches(f[0], t[0]) && MatchesLevels(f', t') {
        forall i | 0 <= i < |f| && i < |t| && (i < |f| - 1 || f[|f| - 1] != "#")
          ensures LevelMatches(f[i], t[i])
        {
          if i > 0 { assert LevelMatches(f'[i - 1], t'[i - 1]); }
        }
      }
    }
  }

  ghost predicate Levels(f: seq<string>) {
    WildcardsStandAlone(f)
  }

  lemma HashIsLast(f: seq<string>)
    requires Levels(f) && f != [] && f[0] == "#"
    ensures f == ["#"]
  {
    assert '#' in f[0];
  }

  lemma LevelsTail(f: seq<string>)
    requires Levels(f) && f != []
    ensures Levels(f[1..])
  {
  }

  ghost predicate Plain(levels: seq<string>) {
    forall i :: 0 <= i < |levels| ==>
      '+' !in levels[i] && '#' !in levels[i] && '\0' !in levels[i] && '/' !in levels[i]
  }

  ghost predicate Slashless(levels: seq<string>) {
    forall i :: 0 <= i < |levels| ==> '/' !in levels[i] && '\0' !in levels[i]
  }

  /** A topic of the same size that `f` matches: every wildcard level becomes `x`. */
  function Sample(f: seq<string>): seq<string> {
    if f == [] then []
    else [if f[0] == "+" || f[0] == "#" then "x" else f[0]] + Sample(f[1..])
  }

  lemma {:induction false} SampleMatches(f: seq<string>)
    requires Levels(f) && Slashless(f)
    ensures |Sample(f)| == |f| && Size(Sample(f)) == Size(f) && Plain(Sample(f))
    ensures MatchesLevels(f, Sample(f))
  {
    if f != [] {
      LevelsTail(f);
      SampleMatches(f[1..]);
      assert Sample(f)[1..] == Sample(f[1..]);
      assert Utf8Length("+") == 1 && Utf8Length("#") == 1 && Utf8Length("x") == 1;
      if f[0] == "#" {
        HashIsLast(f);
      } else {
        MatchStep(f, Sample(f));
      }
    }
  }

  // ------------------------------------------------------------------ containment

  lemma {:induction false} ContainsSound(a: seq<string>, r: seq<string>, t: seq<string>)
    requires Levels(a) && Levels(r) && ContainsLevels(a, r) && MatchesLevels(r, t)
    ensures MatchesLevels(a, t)
  {
    if a == [] {
    } else if a[0] == "#" {
      HashIsLast(a);
    } else {
      LevelsTail(a); LevelsTail(r);
      MatchStep(r, t);
      ContainsSound(a[1..], r[1..], t[1..]);
      assert LevelMatches(a[0], t[0]) by {
        if r[0] == "+" && a[0] != "+" { assert false; }
      }
      MatchStep(a, t);
    }
  }

  function Other(level: string): string {
    if level == "x" then "y" else "x"
  }

  /** A topic matched by `r` and not by `a`, when the scan rejects the pair. */
  function Escape(a: seq<string>, r: seq<string>): seq<string> {
    if a == [] then Sample(r)
    else if r == [] || r[0] == "#" then []
    else if a[0] != "+" && a[0] != r[0] then
      (if r[0] == "+" then [Other(a[0])] else [r[0]]) + Sample(r[1..])
    else [if r[0] == "+" then "x" else r[0]] + Escape(a[1..], r[1..])
  }

  lemma {:induction false} EscapeFits(a: seq<string>, r: seq<string>)
    requires Levels(r) && Slashless(r) && !ContainsLevels(a, r)
    ensures Plain(Escape(a, r)) && Size(Escape(a, r)) <= Size(r)
  {
    hide MatchesLevels;
    assert Utf8Length("+") == 1 && Utf8Length("x") == 1 && Utf8Length("y") == 1;
    if a == [] {
      SampleMatches(r);
    } else if r != [] && r[0] != "#" {
      var e := Escape(a, r);
      LevelsTail(r);
      if a[0] != "+" && a[0] != r[0] {
        SampleMatches(r[1..]);
        assert e[1..] == Sample(r[1..]);
      } else {
        EscapeFits(a[1..], r[1..]);
        assert e[1..] == Escape(a[1..], r[1..]);
      }
      assert e == [e[0]] + e[1..];
    }
  }

  lemma {:induction false} EscapeWorks(a: seq<string>, r: seq<string>)
    requires Levels(a) && Levels(r) && Slashless(r) && !ContainsLevels(a, r)
    ensures Plain(Escape(a, r)) && Size(Escape(a, r)) <= Size(r)
    ensures MatchesLevels(r, Escape(a, r)) && !MatchesLevels(a, Escape(a, r))
  {
    hide Size, Plain;
    EscapeFits(a, r);
    var e := Escape(a, r);
    if a == [] {
      SampleMatches(r);
    } else if r == [] {
      MatchStep(a, e);
    } else if r[0] == "#" {
      HashIsLast(r);
      MatchStep(a, e);
    } else {
      LevelsTail(a); LevelsTail(r);
      if a[0] != "+" && a[0] != r[0] {
        SampleMatches(r[1..]);
        assert e[1..] == Sample(r[1..]);
      } else {
        EscapeWorks(a[1..], r[1..]);
        assert e[1..] == Escape(a[1..], r[1..]);
      }
      MatchStep(r, e);
      MatchStep(a, e);
    }
  }

  lemma TopicFromLevels(t: seq<string>)
    requires Plain(t) && t != [] && t != [""]
    ensures TopicName(Join('/', t)) && Split('/', Join('/', t)) == t
    ensures Utf8Length(Join('/', t)) + 1 == Size(t)
    ensures HasPrefix(Join('/', t), "$") <==> HasPrefix(t[0], "$")
  {
    hide Split, Join, Utf8Length, Size;
    SplitJoin('/', t);
    JoinChars('/', t, '+'); JoinChars('/', t, '#'); JoinChars('/', t, '\0');
    SizeOfJoin(t);
    JoinStarts(t);
  }

  lemma JoinStarts(t: seq<string>)
    requires t != [] && '/' !in t[0] && t != [""]
    ensures Join('/', t) != "" && (HasPrefix(Join('/', t), "$") <==> HasPrefix(t[0], "$"))
  {
    if |t| > 1 {
      assert Join('/', t) == t[0] + ("/" + Join('/', t[1..]));
    }
    if t[0] != "" {
      assert Join('/', t)[0] == t[0][0];
    } else {
      assert Join('/', t)[0] == '/';
    }
  }

  lemma PatternLevels(f: string)
    requires ValidPattern(f)
    ensures Levels(Split('/', f)) && Slashless(Split('/', f)) && Size(Split('/', f)) <= MAX_BYTES + 1
    ensures IsWildcardChar(f[0]) <==> Split('/', f)[0] == "+" || Split('/', f)[0] == "#"
    ensures HasPrefix(f, "$") <==> HasPrefix(Split('/', f)[0], "$")
    ensures Split('/', f) != [""]
  {
    PartsOf('/', f);
    SizeOfJoin(Split('/', f));
    var first := Split('/', f)[0];
    if f[0] != '/' {
      assert first[0] == f[0];
    }
  }

  lemma TopicLevels(t: string)
    requires TopicName(t)
    ensures Plain(Split('/', t)) && Split('/', t) != [""]
    ensures HasPrefix(t, "$") <==> HasPrefix(Split('/', t)[0], "$")
  {
    PartsOf('/', t);
    if t[0] != '/' {
      assert Split('/', t)[0][0] == t[0];
    }
  }

  /** The pairs on which the scan is too strict: the right side matches no name the left side misses. */
  predicate StrictException(allowed: string, requested: string) {
    || (allowed == "+/#" && requested == "#")
    || (allowed == "/+/#" && requested == "/#")
    || (allowed == "+/+/#" && requested == "/#")
  }

  ghost predicate Covers(allowed: string, requested: string) {
    forall t :: ValidTopic(t) && Matches(requested, t) ==> Matches(allowed, t)
  }

  lemma ContainsCovers(allowed: string, requested: string, t: string)
    requires ValidPattern(allowed) && ValidPattern(requested) && FilterContains(allowed, requested)
    requires TopicName(t) && Matches(requested, t)
    ensures Matches(allowed, t)
  {
    PatternLevels(allowed); PatternLevels(requested); TopicLevels(t);
    ContainsSound(Split('/', allowed), Split('/', requested), Split('/', t));
    if IsWildcardChar(allowed[0]) && HasPrefix(t, "$") {
      var r := Split('/', requested);
      if r[0] != "#" { MatchStep(r, Split('/', t)); }
      assert false;
    }
  }

  /** A name `requested` matches and `allowed` does not, given its levels. */
  lemma Refute(allowed: string, requested: string, t: seq<string>)
    requires ValidPattern(allowed) && ValidPattern(requested)
    requires Plain(t) && t != [] && t != [""] && Size(t) <= MAX_BYTES + 1
    requires MatchesLevels(Split('/', requested), t)
    requires HasPrefix(t[0], "$") ==> !IsWildcardChar(requested[0])
    requires MatchesLevels(Split('/', allowed), t) ==> IsWildcardChar(allowed[0]) && HasPrefix(t[0], "$")
    ensures !Covers(allowed, requested)
  {
    TopicFromLevels(t);
    assert ValidTopic(Join('/', t)) && Matches(requested, Join('/', t)) && !Matches(allowed, Join('/', t));
  }

  lemma ExceptionLevels()
    ensures Split('/', "#") == ["#"] && Split('/', "+/#") == ["+", "#"] && Split('/', "/#") == ["", "#"]
    ensures Split('/', "/+/#") == ["", "+", "#"] && Split('/', "+/+/#") == ["+", "+", "#"] && Split('/', "+") == ["+"]
  {
    SplitJoin('/', ["#"]);
    SplitJoin('/', ["+"]);
    assert ["+", "#"][1..] == ["#"];
    SplitJoin('/', ["+", "#"]);
    assert ["", "#"][1..] == ["#"];
    SplitJoin('/', ["", "#"]);
    assert ["", "+", "#"][1..] == ["+", "#"];
    SplitJoin('/', ["", "+", "#"]);
    assert ["+", "+", "#"][1..] == ["+", "#"];
    SplitJoin('/', ["+", "+", "#"]);
  }

  /** Outside the exceptions, a rejected request matches a valid topic the rule does not. */
  lemma RejectedEscapes(allowed: string, requested: string)
    requires ValidPattern(allowed) && ValidPattern(requested)
    requires !FilterContains(allowed, requested) && !StrictException(allowed, requested)
    ensures !Covers(allowed, requested)
  {
    PatternLevels(allowed); PatternLevels(requested);
    var a, r := Split('/', allowed), Split('/', requested);
    if SystemMismatch(allowed, requested) {
      SampleMatches(r);
      if a[0] != "#" { MatchStep(a, Sample(r)); }
      Refute(allowed, requested, Sample(r));
    } else {
      EscapeWorks(a, r);
      var e := Escape(a, r);
      if e == [] {
        EscapeFromHash(allowed, requested);
      } else if e == [""] {
        EscapeFromSlashHash(allowed, requested);
      } else {
        assert HasPrefix(e[0], "$") ==> !IsWildcardChar(requested[0]) by {
          if r[0] == "+" { MatchStep(r, e); }
        }
        Refute(allowed, requested, e);
      }
    }
  }

  lemma SmallSizes()
    ensures Size(["x"]) == 2 && Size(["y"]) == 2 && Size(["x", "x"]) == 4
  {
    assert Utf8Length("x") == 1 && Utf8Length("y") == 1;
    assert ["x", "x"][1..] == ["x"];
  }

  lemma EscapeFromHash(allowed: string, requested: string)
    requires ValidPattern(allowed) && ValidPattern(requested)
    requires !ContainsLevels(Split('/', allowed), Split('/', requested)) && !StrictException(allowed, requested)
    requires Escape(Split('/', allowed), Split('/', requested)) == []
    ensures !Covers(allowed, requested)
  {
    hide Split, Size;
    PatternLevels(allowed); PatternLevels(requested); ExceptionLevels();
    var a, r := Split('/', allowed), Split('/', requested);
    assert r[0] == "#";
    HashIsLast(r);
    SplitInjective('/', requested, "#");
    var t := if a == ["+"] then ["x", "x"] else [Other(a[0])];
    SmallSizes();
    if MatchesLevels(a, t) {
      MatchStep(a, t);
      assert a[0] == "+" && a != ["+"];
      assert t[1..] == [];
      LevelsTail(a);
      assert a[1..][|a| - 2] == "#" by { assert MatchesLevels(a[1..], []); }
      assert a[1..] == ["#"];
      assert a == ["+", "#"];
      SplitInjective('/', allowed, "+/#");
      assert false;
    }
    Refute(allowed, requested, t);
  }

  lemma EscapeFromSlashHash(allowed: string, requested: string)
    requires ValidPattern(allowed) && ValidPattern(requested)
    requires !ContainsLevels(Split('/', allowed), Split('/', requested)) && !StrictException(allowed, requested)
    requires Escape(Split('/', allowed), Split('/', requested)) == [""]
    ensures !Covers(allowed, requested)
  {
    PatternLevels(allowed); PatternLevels(requested); ExceptionLevels();
    var a, r := Split('/', allowed), Split('/', requested);
    SlashHashRequested(a, r);
    SplitInjective('/', requested, "/#");
    var t := SlashHashTopic(a);
    SlashHashMissed(a);
    if MatchesLevels(a, t) {
      if a[0] == "+" { SplitInjective('/', allowed, "+/+/#"); } else { SplitInjective('/', allowed, "/+/#"); }
      assert false;
    }
    Refute(allowed, requested, t);
  }

  lemma SlashHashRequested(a: seq<string>, r: seq<string>)
    requires Levels(a) && Levels(r) && Slashless(r) && r != [""]
    requires !ContainsLevels(a, r) && Escape(a, r) == [""]
    ensures r == ["", "#"] && |a| > 1 && (a[0] == "+" || a[0] == "") && a[1] != "#"
  {
    EscapeWorks(a, r);
    if r != [] && r[0] == "#" { HashIsLast(r); }
    MatchStep(r, [""]);
    assert r == [r[0]] + r[1..] && [""][1..] == [];
    LevelsTail(r);
    assert MatchesLevels(r[1..], []);
    assert r[1..] == [] || r[1..] == ["#"];
  }

  /** A nonempty name below `/` that `a` misses, for an `a` the scan refuses for `/#`. */
  function SlashHashTopic(a: seq<string>): seq<string>
    requires |a| > 1
  {
    if a[1..] == ["+"] then ["", "x", "x"] else ["", Other(a[1])]
  }

  lemma SlashHashMissed(a: seq<string>)
    requires Levels(a) && |a| > 1 && (a[0] == "+" || a[0] == "") && a[1] != "#"
    ensures Size(SlashHashTopic(a)) <= 5
    ensures MatchesLevels(a, SlashHashTopic(a)) ==> a == [a[0], "+", "#"]
  {
    var t, b := SlashHashTopic(a), a[1..];
    assert Utf8Length("x") == 1 && Utf8Length("y") == 1 && Utf8Length("") == 0;
    assert ["", "x", "x"][1..] == ["x", "x"] && ["x", "x"][1..] == ["x"];
    assert ["", Other(a[1])][1..] == [Other(a[1])];
    assert Size(["x"]) == 2 && Size(["y"]) == 2 && Size(["x", "x"]) == 4;
    if MatchesLevels(a, t) {
      MatchStep(a, t);
      MatchStep(b, t[1..]);
      LevelsTail(a);
      LevelsTail(b);
      assert b != ["+"];
      assert t[1..][1..] == [];
      assert b[1..] == ["#"] by { assert MatchesLevels(b[1..], []); }
      assert a == [a[0]] + ([b[0]] + b[1..]);
    }
  }

  /** Containment is exact on valid topic names, up to three pairs it rejects for no reason. */
  lemma ContainmentIsExact(allowed: string, requested: string)
    requires ValidPattern(allowed) && ValidPattern(requested)
    ensures FilterContains(allowed, requested) <==>
      Covers(allowed, requested) && !StrictException(allowed, requested)
  {
    if FilterContains(allowed, requested) {
      forall t | ValidTopic(t) && Matches(requested, t) ensures Matches(allowed, t) {
        ContainsCovers(allowed, requested, t);
      }
      ExceptionLevels();
      assert !StrictException(allowed, requested);
    } else if !StrictException(allowed, requested) {
      RejectedEscapes(allowed, requested);
    }
  }

  /** On the exceptional pairs coverage holds although the scan says no. */
  lemma ExceptionsAreCovered(allowed: string, requested: string)
    requires StrictException(allowed, requested)
    ensures Covers(allowed, requested) && !FilterContains(allowed, requested)
  {
    ExceptionLevels();
    forall t | ValidTopic(t) && Matches(requested, t) ensures Matches(allowed, t) {
      TopicLevels(t);
      var a, l := Split('/', allowed), Split('/', t);
      if requested == "#" {
        assert MatchesLevels(a, l);
      } else {
        MatchStep(["", "#"], l);
        assert l == [l[0]] + l[1..];
        assert MatchesLevels(a, l);
      }
    }
  }

  lemma {:induction false} ContainsLevelsReflexive(a: seq<string>)
    ensures ContainsLevels(a, a)
  {
    if a != [] { ContainsLevelsReflexive(a[1..]); }
  }

  lemma {:induction false} ContainsLevelsTransitive(a: seq<string>, b: seq<string>, c: seq<string>)
    requires ContainsLevels(a, b) && ContainsLevels(b, c)
    ensures ContainsLevels(a, c)
  {
    if a != [] && a[0] != "#" {
      ContainsLevelsTransitive(a[1..], b[1..], c[1..]);
    }
  }

  lemma ContainmentIsAPreorder(a: string, b: string, c: string)
    requires ValidPattern(a) && ValidPattern(b) && ValidPattern(c)
    ensures FilterContains(a, a)
    ensures FilterContains(a, b) && FilterContains(b, c) ==> FilterContains(a, c)
  {
    PatternLevels(a); PatternLevels(b); PatternLevels(c);
    ContainsLevelsReflexive(Split('/', a));
    if FilterContains(a, b) && FilterContains(b, c) {
      ContainsLevelsTransitive(Split('/', a), Split('/', b), Split('/', c));
      assert !SystemMismatch(a, c);
    }
  }

  // ---------------------------------------------------------------------- overlap

  /** The shortest topic `f` matches, on levels. */
  function LeastSample(f: seq<string>): seq<string> {
    if f == [] || f[0] == "#" then []
    else [if f[0] == "+" then "" else f[0]] + LeastSample(f[1..])
  }

  /** The shortest topic both filters match, on levels. */
  function LeastCommon(a: seq<string>, b: seq<string>): seq<string> {
    if a == [] || b == [] then []
    else if a[0] == "#" then LeastSample(b)
    else if b[0] == "#" then LeastSample(a)
    else [if a[0] != "+" then a[0] else if b[0] != "+" then b[0] else ""] + LeastCommon(a[1..], b[1..])
  }

  lemma {:induction false} LeastSampleMatches(f: seq<string>)
    requires Levels(f) && Slashless(f)
    ensures Plain(LeastSample(f)) && MatchesLevels(f, LeastSample(f))
  {
    if f == [] {
    } else if f[0] == "#" {
      HashIsLast(f);
    } else {
      LevelsTail(f);
      LeastSampleMatches(f[1..]);
      assert LeastSample(f)[1..] == LeastSample(f[1..]);
      MatchStep(f, LeastSample(f));
    }
  }

  lemma {:induction false} LeastSampleIsLeast(f: seq<string>, t: seq<string>)
    requires Levels(f) && MatchesLevels(f, t)
    ensures Size(LeastSample(f)) <= Size(t)
  {
    if f != [] && f[0] != "#" {
      LevelsTail(f);
      MatchStep(f, t);
      LeastSampleIsLeast(f[1..], t[1..]);
      assert LeastSample(f)[1..] == LeastSample(f[1..]);
    }
  }

  lemma {:induction false} LeastCommonMatches(a: seq<string>, b: seq<string>)
    requires Levels(a) && Levels(b) && Slashless(a) && Slashless(b) && OverlapLevels(a, b)
    ensures Plain(LeastCommon(a, b))
    ensures MatchesLevels(a, LeastCommon(a, b)) && MatchesLevels(b, LeastCommon(a, b))
  {
    var w := LeastCommon(a, b);
    if a == [] || b == [] {
    } else if a[0] == "#" {
      HashIsLast(a);
      LeastSampleMatches(b);
    } else if b[0] == "#" {
      HashIsLast(b);
      LeastSampleMatches(a);
    } else {
      LevelsTail(a); LevelsTail(b);
      LeastCommonMatches(a[1..], b[1..]);
      assert w[1..] == LeastCommon(a[1..], b[1..]);
      MatchStep(a, w);
      MatchStep(b, w);
    }
  }

  lemma {:induction false} LeastCommonIsLeast(a: seq<string>, b: seq<string>, t: seq<string>)
    requires Levels(a) && Levels(b) && Plain(t) && MatchesLevels(a, t) && MatchesLevels(b, t)
    ensures OverlapLevels(a, b) && Size(LeastCommon(a, b)) <= Size(t)
  {
    if a == [] {
      if b != [] && b[0] != "#" { MatchStep(b, t); } else if b != [] { HashIsLast(b); }
    } else if b == [] {
      if a[0] != "#" { MatchStep(a, t); } else { HashIsLast(a); }
    } else if a[0] == "#" {
      LeastSampleIsLeast(b, t);
    } else if b[0] == "#" {
      LeastSampleIsLeast(a, t);
    } else {
      LevelsTail(a); LevelsTail(b);
      MatchStep(a, t);
      MatchStep(b, t);
      LeastCommonIsLeast(a[1..], b[1..], t[1..]);
      assert LeastCommon(a, b)[1..] == LeastCommon(a[1..], b[1..]);
    }
  }

  ghost predicate Common(left: string, right: string, t: string) {
    TopicName(t) && Matches(left, t) && Matches(right, t)
  }

  /** The one pair, in either order, whose only common topic would be the empty name. */
  predicate EmptyNameOnly(left: string, right: string) {
    (left == "/#" && right == "+") || (left == "+" && right == "/#")
  }

  lemma CommonTopicMeansOverlap(left: string, right: string, t: string)
    requires ValidPattern(left) && ValidPattern(right) && Common(left, right, t)
    ensures FiltersOverlap(left, right) && !EmptyNameOnly(left, right)
    ensures Size(LeastCommon(Split('/', left), Split('/', right))) <= Utf8Length(t) + 1
  {
    PatternLevels(left); PatternLevels(right); TopicLevels(t); ExceptionLevels();
    PartsOf('/', t);
    SizeOfJoin(Split('/', t));
    LeastCommonIsLeast(Split('/', left), Split('/', right), Split('/', t));
    if Split('/', left)[0] != "#" { MatchStep(Split('/', left), Split('/', t)); }
    if Split('/', right)[0] != "#" { MatchStep(Split('/', right), Split('/', t)); }
    if EmptyNameOnly(left, right) {
      MatchStep(["", "#"], Split('/', t));
      MatchStep(["+"], Split('/', t));
      assert false;
    }
  }

  /** A short common topic when the least one on levels is not a name. */
  lemma ShortCommonTopic(left: string, right: string) returns (t: string)
    requires ValidPattern(left) && ValidPattern(right)
    requires FiltersOverlap(left, right) && !EmptyNameOnly(left, right)
    requires LeastCommon(Split('/', left), Split('/', right)) in {[], [""]}
    ensures Common(left, right, t) && ValidTopic(t)
  {
    hide Split, Join, Size, Utf8Length;
    PatternLevels(left); PatternLevels(right); ExceptionLevels();
    var a, b := Split('/', left), Split('/', right);
    LeastCommonMatches(a, b);
    AtMostOneLevel(left, LeastCommon(a, b));
    AtMostOneLevel(right, LeastCommon(a, b));
    var levels := if a[0] == "" || b[0] == "" then ["", ""] else ["x"];
    ShortTopicMatches(a, levels);
    ShortTopicMatches(b, levels);
    TopicFromLevels(levels);
    t := Join('/', levels);
  }

  lemma ShortTopicMatches(f: seq<string>, t: seq<string>)
    requires f in {["#"], ["+"], ["+", "#"], ["", "#"]}
    requires t == ["x"] || t == ["", ""]
    ensures Size(t) <= 2
    ensures MatchesLevels(f, t) <==> if t == ["x"] then f[0] != "" else f != ["+"]
  {
    assert ["", ""][1..] == [""];
    assert Utf8Length("x") == 1;
    assert LevelMatches("+", "x") && !LevelMatches("", "x");
  }

  lemma AtMostOneLevel(f: string, w: seq<string>)
    requires ValidPattern(f) && w in {[], [""]} && MatchesLevels(Split('/', f), w)
    ensures f in {"#", "+", "+/#", "/#"}
    ensures Split('/', f) in {["#"], ["+"], ["+", "#"], ["", "#"]}
  {
    PatternLevels(f); ExceptionLevels();
    var l := Split('/', f);
    if l[0] == "#" {
      HashIsLast(l);
      SplitInjective('/', f, "#");
    } else {
      MatchStep(l, w);
      LevelsTail(l);
      assert w[1..] == [];
      assert l[1..] == [] || l[1..] == ["#"] by { assert MatchesLevels(l[1..], []); }
      assert l == [l[0]] + l[1..];
      if l[1..] == [] {
        SplitInjective('/', f, "+");
      } else if l[0] == "+" {
        SplitInjective('/', f, "+/#");
      } else {
        SplitInjective('/', f, "/#");
      }
    }
  }

  lemma {:induction false} OverlapHasTopic(left: string, right: string) returns (t: string)
    requires ValidPattern(left) && ValidPattern(right)
    requires FiltersOverlap(left, right) && !EmptyNameOnly(left, right)
    ensures Common(left, right, t)
    ensures ValidTopic(t) || Utf8Length(t) + 1 == Size(LeastCommon(Split('/', left), Split('/', right)))
  {
    PatternLevels(left); PatternLevels(right);
    var w := LeastCommon(Split('/', left), Split('/', right));
    if w in {[], [""]} {
      t := ShortCommonTopic(left, right);
    } else {
      LeastCommonMatches(Split('/', left), Split('/', right));
      TopicFromLevels(w);
      t := Join('/', w);
      assert HasPrefix(w[0], "$") ==> !IsWildcardChar(left[0]) && !IsWildcardChar(right[0]);
    }
  }

  /** Two filters overlap exactly when some topic name, of whatever length, matches both. */
  lemma OverlapIsExact(left: string, right: string)
    requires ValidPattern(left) && ValidPattern(right)
    ensures FiltersOverlap(left, right) && !EmptyNameOnly(left, right) <==> exists t :: Common(left, right, t)
  {
    if FiltersOverlap(left, right) && !EmptyNameOnly(left, right) {
      var t := OverlapHasTopic(left, right);
    }
    forall t | Common(left, right, t) ensures FiltersOverlap(left, right) && !EmptyNameOnly(left, right) {
      CommonTopicMeansOverlap(left, right, t);
    }
  }

  /** Within the 65535-byte limit the scan errs further, exactly when the shortest common topic is too long. */
  lemma OverlapWithinLimit(left: string, right: string)
    requires ValidPattern(left) && ValidPattern(right)
    ensures (exists t :: Common(left, right, t) && ValidTopic(t)) <==>
      && FiltersOverlap(left, right) && !EmptyNameOnly(left, right)
      && Size(LeastCommon(Split('/', left), Split('/', right))) <= MAX_BYTES + 1
  {
    if && FiltersOverlap(left, right) && !EmptyNameOnly(left, right)
       && Size(LeastCommon(Split('/', left), Split('/', right))) <= MAX_BYTES + 1 {
      var t := OverlapHasTopic(left, right);
      assert Common(left, right, t) && ValidTopic(t);
    }
    forall t | Common(left, right, t) && ValidTopic(t)
      ensures && FiltersOverlap(left, right) && !EmptyNameOnly(left, right)
              && Size(LeastCommon(Split('/', left), Split('/', right))) <= MAX_BYTES + 1
    {
      CommonTopicMeansOverlap(left, right, t);
    }
  }

  /** On the exceptional pair the scan says yes although no name matches both. */
  lemma EmptyNameOverlaps(left: string, right: string)
    requires EmptyNameOnly(left, right)
    ensures FiltersOverlap(left, right) && !exists t :: Common(left, right, t)
  {
    ExceptionLevels();
    assert ValidPattern(left) && ValidPattern(right);
    OverlapIsExact(left, right);
  }

  function Repeat(n: nat): string {
    seq(n, _ => 'a')
  }

  lemma {:induction false} RepeatLength(n: nat)
    ensures Utf8Length(Repeat(n)) == n
  {
    if n > 0 {
      assert Repeat(n)[1..] == Repeat(n - 1);
      RepeatLength(n - 1);
    }
  }

  /** Two filters within the limit that overlap although every name that matches both is beyond it. */
  lemma LongNameOnly() returns (left: string, right: string)
    ensures ValidPattern(left) && ValidPattern(right) && FiltersOverlap(left, right)
    ensures (exists t :: Common(left, right, t)) && !exists t :: Common(left, right, t) && ValidTopic(t)
  {
    hide Split, Utf8Length, Size, LeastCommon, OverlapLevels, Repeat, ValidPattern, ValidTopic;
    var long := Repeat(40000);
    RepeatLength(40000);
    left, right := long + "/+", "+/" + long;
    LongPattern(long);
    CrossCommon(long);
    OverlapIsExact(left, right);
    OverlapWithinLimit(left, right);
  }

  lemma CrossCommon(x: string)
    requires x != "+" && x != "#"
    ensures OverlapLevels([x, "+"], ["+", x]) && LeastCommon([x, "+"], ["+", x]) == [x, x]
    ensures Size([x, x]) == 2 * Utf8Length(x) + 2
  {
    hide Utf8Length;
    var a, b := [x, "+"], ["+", x];
    assert a[1..] == ["+"] && b[1..] == [x] && ["+"][1..] == [] && [x][1..] == [] && [x, x][1..] == [x];
    assert LeastCommon(["+"], [x]) == [x] + LeastCommon([], []);
    assert OverlapLevels(["+"], [x]) == OverlapLevels([], []);
    assert Size([x]) == Utf8Length(x) + 1 + Size([]);
  }

  lemma LongPattern(long: string)
    requires long == Repeat(40000) && Utf8Length(long) == 40000
    ensures ValidPattern(long + "/+") && ValidPattern("+/" + long)
    ensures Split('/', long + "/+") == [long, "+"] && Split('/', "+/" + long) == ["+", long]
    ensures long[0] == 'a' && long != "+" && long != "#"
  {
    hide Utf8Length, Split;
    assert long + "/+" == long + ['/'] + "+" && "+/" + long == "+" + ['/'] + long;
    SplitAfterPart('/', long, "+");
    SplitAfterPart('/', "+", long);
    SplitPart('/', "+");
    SplitPart('/', long);
    assert [long] + ["+"] == [long, "+"] && ["+"] + [long] == ["+", long];
    Utf8Concat(long, "/+");
    Utf8Concat("+/", long);
    ShortUtf8();
    assert forall c :: c in long ==> c == 'a';
  }

  lemma ShortUtf8()
    ensures Utf8Length("/+") == 2 && Utf8Length("+/") == 2
  {
    assert "/+"[1..] == "+" && "+/"[1..] == "/";
  }

  // ------------------------------------------------------ were the empty name a topic

  predicate NameOrEmpty(t: string) {
    t == "" || TopicName(t)
  }

  lemma EmptyMatches(f: string)
    requires ValidPattern(f)
    ensures Matches(f, "") <==> Split('/', f) in {["+"], ["#"], ["+", "#"], ["", "#"]}
  {
    hide Split;
    EmptyLevels();
    PatternLevels(f);
    var l := Split('/', f);
    if l[0] != "#" {
      MatchStep(l, [""]);
      assert [""][1..] == [] && l == [l[0]] + l[1..];
      LevelsTail(l);
      var tail := l[1..];
      assert MatchesLevels(tail, []) <==> tail == [] || tail == ["#"];
      OneOrTwo(l);
    } else {
      HashIsLast(l);
    }
  }

  lemma OneOrTwo(l: seq<string>)
    requires l != []
    ensures l in {["+"], ["+", "#"]} <==> l[0] == "+" && (l[1..] == [] || l[1..] == ["#"])
    ensures l in {[""], ["", "#"]} <==> l[0] == "" && (l[1..] == [] || l[1..] == ["#"])
  {
    if l[1..] == [] { assert l == [l[0]]; }
    if l[1..] == ["#"] { assert l == [l[0]] + l[1..] == [l[0], "#"]; }
    assert ["+", "#"][1..] == ["#"] && ["", "#"][1..] == ["#"] && ["+"][1..] == [] && [""][1..] == [];
  }

  lemma EmptyLevels()
    ensures Split('/', "") == [""]
  {
  }

  /** If the empty name counted, containment would be exact but for one pair ... */
  lemma {:induction false} ContainmentWithEmptyName(allowed: string, requested: string)
    requires ValidPattern(allowed) && ValidPattern(requested)
    ensures FilterContains(allowed, requested) <==>
      && (forall t :: (t == "" || ValidTopic(t)) && Matches(requested, t) ==> Matches(allowed, t))
      && !(allowed == "+/#" && requested == "#")
  {
    hide Split, Matches, ValidTopic, TopicName;
    ContainmentIsExact(allowed, requested);
    EmptyMatches(allowed);
    EmptyMatches(requested);
    ExceptionLevels();
    PatternLevels(allowed); PatternLevels(requested);
    if FilterContains(allowed, requested) && Matches(requested, "") {
      EmptyContained(Split('/', allowed), Split('/', requested));
    }
    assert Covers(allowed, requested) <==> forall t :: ValidTopic(t) && Matches(requested, t) ==> Matches(allowed, t);
  }

  lemma EmptyContained(a: seq<string>, r: seq<string>)
    requires Levels(a) && Levels(r) && ContainsLevels(a, r) && a != [""]
    requires r in {["+"], ["#"], ["+", "#"], ["", "#"]}
    ensures a in {["+"], ["#"], ["+", "#"], ["", "#"]}
  {
    if a[0] == "#" {
      HashIsLast(a);
    } else {
      LevelsTail(a);
      var tail, rest := a[1..], r[1..];
      assert rest == [] || rest == ["#"];
      assert ContainsLevels(tail, rest) && r[0] != "#" && (a[0] == "+" || a[0] == "");
      if tail != [] {
        assert tail[0] == "#";
        HashIsLast(tail);
      }
      OneOrTwo(a);
    }
  }

  /** ... and overlap would be exact without exception. */
  lemma {:induction false} OverlapWithEmptyName(left: string, right: string)
    requires ValidPattern(left) && ValidPattern(right)
    ensures FiltersOverlap(left, right) <==> exists t :: NameOrEmpty(t) && Matches(left, t) && Matches(right, t)
  {
    hide Split, Matches, TopicName;
    OverlapIsExact(left, right);
    EmptyMatches(left);
    EmptyMatches(right);
    ExceptionLevels();
    PatternLevels(left); PatternLevels(right);
    if EmptyNameOnly(left, right) {
      EmptyNameOverlaps(left, right);
      assert NameOrEmpty("") && Matches(left, "") && Matches(right, "");
    }
    if Matches(left, "") && Matches(right, "") {
      EmptyOverlaps(Split('/', left), Split('/', right));
      assert !SystemMismatch(left, right);
    }
    forall t | TopicName(t) && Matches(left, t) && Matches(right, t) ensures Common(left, right, t) {
    }
    forall t | Common(left, right, t) ensures NameOrEmpty(t) && Matches(left, t) && Matches(right, t) {
    }
  }

  lemma EmptyOverlaps(a: seq<string>, b: seq<string>)
    requires a in {["+"], ["#"], ["+", "#"], ["", "#"]} && b in {["+"], ["#"], ["+", "#"], ["", "#"]}
    ensures OverlapLevels(a, b)
  {
    if a[0] != "#" && b[0] != "#" {
      var t, u := a[1..], b[1..];
      assert (t == [] || t == ["#"]) && (u == [] || u == ["#"]);
      assert OverlapLevels(t, u);
    }
  }

  // -------------------------------------------------------------- order and symmetry

  lemma {:induction false} OverlapLevelsSymmetric(a: seq<string>, b: seq<string>)
    ensures OverlapLevels(a, b) == OverlapLevels(b, a)
  {
    if a != [] && b != [] { OverlapLevelsSymmetric(a[1..], b[1..]); }
  }

  lemma {:induction false} OverlapLevelsMonotone(a: seq<string>, r: seq<string>, y: seq<string>)
    requires Levels(a) && Levels(r) && Levels(y) && ContainsLevels(a, r) && OverlapLevels(r, y)
    ensures OverlapLevels(a, y)
  {
    if a == [] || r == [] {
      if a != [] { HashIsLast(a); }
    } else if a[0] == "#" {
      HashIsLast(a);
    } else if y == [] {
      HashIsLast(r);
    } else {
      LevelsTail(a); LevelsTail(r); LevelsTail(y);
      if y[0] != "#" { OverlapLevelsMonotone(a[1..], r[1..], y[1..]); }
    }
  }

  /** Overlap is symmetric, and widening either side keeps it. */
  lemma OverlapIsSymmetricAndMonotone(wide: string, narrow: string, other: string)
    requires ValidPattern(wide) && ValidPattern(narrow) && ValidPattern(other)
    ensures FiltersOverlap(narrow, other) == FiltersOverlap(other, narrow)
    ensures FilterContains(wide, narrow) && FiltersOverlap(narrow, other) ==> FiltersOverlap(wide, other)
  {
    PatternLevels(wide); PatternLevels(narrow); PatternLevels(other);
    OverlapLevelsSymmetric(Split('/', narrow), Split('/', other));
    if FilterContains(wide, narrow) && FiltersOverlap(narrow, other) {
      OverlapLevelsMonotone(Split('/', wide), Split('/', narrow), Split('/', other));
    }
  }

  // -------------------------------------------------------------------------- ACL

  /** A granted subscription never receives a topic the plain ACL would refuse. */
  lemma GrantedSubscriptionIsDeliverable(filter: string, topic: string, settings: Settings)
    requires settings.Valid() && Authorize(filter, settings, true) == Granted
    requires ValidTopic(topic) && Matches(filter, topic)
    ensures Authorize(topic, settings, false) == Granted
  {
    var i :| 0 <= i < |settings.allowed| && RuleAllows(settings.allowed[i], filter, true);
    ContainsCovers(settings.allowed[i], filter, topic);
    forall j | 0 <= j < |settings.blocked| ensures !RuleBlocks(settings.blocked[j], topic, false) {
      assert !RuleBlocks(settings.blocked[j], filter, true);
      if Matches(settings.blocked[j], topic) {
        CommonTopicMeansOverlap(settings.blocked[j], filter, topic);
      }
    }
    assert RuleAllows(settings.allowed[i], topic, false);
  }

  /** What a grant means: one rule covers the filter, and no block rule meets it. */
  lemma GrantIsExact(filter: string, settings: Settings)
    requires settings.Valid() && ValidSubscription(filter)
    ensures Authorize(filter, settings, true) == Granted <==>
      && (exists i :: 0 <= i < |settings.allowed| && Covers(settings.allowed[i], filter)
                      && !StrictException(settings.allowed[i], filter))
      && (forall j :: 0 <= j < |settings.blocked| ==>
            !EmptyNameOnly(settings.blocked[j], filter) && !exists t :: Common(settings.blocked[j], filter, t))
  {
    forall i | 0 <= i < |settings.allowed|
      ensures RuleAllows(settings.allowed[i], filter, true) <==>
        Covers(settings.allowed[i], filter) && !StrictException(settings.allowed[i], filter)
    {
      ContainmentIsExact(settings.allowed[i], filter);
    }
    forall j | 0 <= j < |settings.blocked|
      ensures RuleBlocks(settings.blocked[j], filter, true) <==>
        EmptyNameOnly(settings.blocked[j], filter) || exists t :: Common(settings.blocked[j], filter, t)
    {
      OverlapIsExact(settings.blocked[j], filter);
      if EmptyNameOnly(settings.blocked[j], filter) { ExceptionLevels(); }
    }
  }

  /** What a grant means for a plain topic: some allow rule matches it, and no block rule does. */
  lemma {:induction false} PlainGrantIsExact(topic: string, settings: Settings)
    requires settings.Valid()
    ensures Authorize(topic, settings, false) == Granted <==>
      && ValidTopic(topic)
      && (exists i :: 0 <= i < |settings.allowed| && Matches(settings.allowed[i], topic))
      && (forall j :: 0 <= j < |settings.blocked| ==> !Matches(settings.blocked[j], topic))
  {
    hide Matches;
    if ValidTopic(topic) {
      forall i | 0 <= i < |settings.allowed| ensures RuleAllows(settings.allowed[i], topic, false) <==> Matches(settings.allowed[i], topic) {
      }
      forall j | 0 <= j < |settings.blocked| ensures RuleBlocks(settings.blocked[j], topic, false) <==> Matches(settings.blocked[j], topic) {
      }
    }
  }

  // ------------------------------------------------------------- names and filters

  /** Both neighbours of a character are slashes or the ends of the text. */
  predicate FillsLevel(s: string, k: nat)
    requires k < |s|
  {
    (k == 0 || s[k - 1] == '/') && (k == |s| - 1 || s[k + 1] == '/')
  }

  /** Wildcards fill a level of their own, and a `#` the last one. */
  ghost predicate WildcardsFit(s: string) {
    forall k :: 0 <= k < |s| ==>
      (s[k] == '+' ==> FillsLevel(s, k)) && (s[k] == '#' ==> FillsLevel(s, k) && k == |s| - 1)
  }

  /** The first level of a text, and the text behind its slash if there is one. */
  lemma {:induction false} FirstLevel(s: string) returns (part: string, rest: string)
    ensures '/' !in part
    ensures |Split('/', s)| == 1 ==> s == part && Split('/', s) == [part]
    ensures |Split('/', s)| > 1 ==> s == part + "/" + rest && Split('/', s) == [part] + Split('/', rest)
  {
    hide Split;
    PartsOf('/', s);
    var levels := Split('/', s);
    part, rest := levels[0], "";
    if |levels| > 1 {
      rest := Join('/', levels[1..]);
      SplitJoin('/', levels[1..]);
    }
  }

  lemma OneLevelFits(s: string)
    requires '/' !in s
    ensures WildcardsFit(s) <==> WildcardsStandAlone([s])
  {
    assert forall j :: 0 <= j < |s| ==> s[j] != '/';
    if WildcardsStandAlone([s]) {
      assert ('+' in [s][0] ==> s == "+") && ('#' in [s][0] ==> s == "#");
    }
    if WildcardsFit(s) {
      forall c | c in s && (c == '+' || c == '#') ensures s == [c] {
        var k :| 0 <= k < |s| && s[k] == c;
        assert FillsLevel(s, k);
      }
    }
  }

  lemma LevelInFront(part: string, levels: seq<string>)
    requires levels != []
    ensures WildcardsStandAlone([part] + levels) <==> ('+' in part ==> part == "+") && '#' !in part && WildcardsStandAlone(levels)
  {
    var all := [part] + levels;
    assert all[0] == part;
    assert forall i :: 0 <= i < |levels| ==> levels[i] == all[i + 1];
    if WildcardsStandAlone(all) {
      forall i | 0 <= i < |levels|
        ensures ('+' in levels[i] ==> levels[i] == "+") && ('#' in levels[i] ==> levels[i] == "#" && i == |levels| - 1)
      {
        assert all[i + 1] == levels[i];
      }
    }
  }

  lemma {:induction false} TextInFront(part: string, rest: string)
    requires '/' !in part
    ensures WildcardsFit(part + "/" + rest) <==> ('+' in part ==> part == "+") && '#' !in part && WildcardsFit(rest)
  {
    var s := part + "/" + rest;
    var n := |part|;
    assert forall k :: 0 <= k < n ==> s[k] == part[k] && s[k] != '/';
    assert forall j :: 0 <= j < |rest| ==> rest[j] == s[n + 1 + j];
    forall j | 0 <= j < |rest| ensures FillsLevel(rest, j) <==> FillsLevel(s, n + 1 + j) {
    }
    if WildcardsFit(s) {
      forall k | 0 <= k < n && (part[k] == '+' || part[k] == '#') ensures part == "+" {
        assert s[k] == part[k] && FillsLevel(s, k);
      }
      forall j | 0 <= j < |rest| ensures (rest[j] == '+' ==> FillsLevel(rest, j)) && (rest[j] == '#' ==> FillsLevel(rest, j) && j == |rest| - 1) {
        assert s[n + 1 + j] == rest[j];
      }
    }
    if ('+' in part ==> part == "+") && '#' !in part && WildcardsFit(rest) {
      forall k | 0 <= k < |s| ensures (s[k] == '+' ==> FillsLevel(s, k)) && (s[k] == '#' ==> FillsLevel(s, k) && k == |s| - 1) {
        if k < n {
          assert s[k] == part[k] && part[k] in part;
        } else if k > n {
          assert rest[k - n - 1] == s[k];
        }
      }
    }
  }

  lemma {:induction false} LevelsFit(s: string)
    ensures WildcardsFit(s) <==> WildcardsStandAlone(Split('/', s))
    decreases |s|
  {
    hide WildcardsFit, WildcardsStandAlone, Split;
    var part, rest := FirstLevel(s);
    if |Split('/', s)| == 1 {
      OneLevelFits(s);
    } else {
      LevelsFit(rest);
      TextInFront(part, rest);
      assert Split('/', rest) != [];
      LevelInFront(part, Split('/', rest));
    }
  }

  /** A plain topic or a filter is refused as such exactly for being empty, longer than 65535 bytes, holding a NUL, or
  for a wildcard that no topic may have and that a filter must give a level of its own, or as a shared subscription. */
  lemma {:induction false} InvalidIsExact(topic: string, settings: Settings)
    requires settings.Valid()
    ensures Authorize(topic, settings, false) == InvalidTopic <==>
      |topic| == 0 || Utf8Length(topic) > 65535 || exists c :: c in topic && c in {'\0', '+', '#'}
    ensures Authorize(topic, settings, true) == InvalidTopic <==>
      || |topic| == 0 || Utf8Length(topic) > 65535 || '\0' in topic || !WildcardsFit(topic)
      || (|topic| >= 7 && topic[..7] == "$share/")
  {
    hide WildcardsFit, WildcardsStandAlone, Split, Utf8Length, Settings.Valid, FilterContains, FiltersOverlap, Matches;
    LevelsFit(topic);
  }

  /** The bytes of a text: one, two, three or four for each character by its code point. */
  lemma {:induction false} BytesAppended(s: string, c: char)
    ensures Utf8Length("") == 0
    ensures Utf8Length(s + [c]) == Utf8Length(s) +
      if c as int <= 0x7F then 1 else if c as int <= 0x7FF then 2 else if c as int <= 0xFFFF then 3 else 4
  {
    Utf8Concat(s, [c]);
  }
}
