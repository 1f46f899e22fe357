/** What an identity accepts and what every projection writes, in numbers and texts. */
module Projections {
  import opened Text
  import opened Wrappers
  import opened Plans

  // ------------------------------------------------------------------ identities

  ghost predicate ThreeNumbers(base: string) {
    exists a: nat, b: nat, c: nat :: base == Decimal(a) + "." + Decimal(b) + "." + Decimal(c)
  }

  lemma {:induction false} ThreeNumbersSplit(a: nat, b: nat, c: nat)
    ensures Split('.', Decimal(a) + "." + Decimal(b) + "." + Decimal(c)) == [Decimal(a), Decimal(b), Decimal(c)]
  {
    NumberOfDecimal(a); NumberOfDecimal(b); NumberOfDecimal(c);
    assert Decimal(a) + "." + Decimal(b) + "." + Decimal(c) == Decimal(a) + "." + (Decimal(b) + "." + Decimal(c));
    SplitAfterPart('.', Decimal(a), Decimal(b) + "." + Decimal(c));
    SplitAfterPart('.', Decimal(b), Decimal(c));
    SplitPart('.', Decimal(c));
  }

  lemma {:induction false} JoinThree(s: string)
    requires |Split('.', s)| == 3
    ensures var p := Split('.', s); s == p[0] + "." + p[1] + "." + p[2]
  {
    PartsOf('.', s);
    var p := Split('.', s);
    assert p[1..][1..] == [p[2]];
    assert Join('.', p[1..]) == p[1] + "." + p[2];
    assert Join('.', p) == p[0] + "." + (p[1] + "." + p[2]);
  }

  /** A base is three numbers without superfluous zeros. */
  lemma {:induction false} BaseIsThreeNumbers(base: string)
    ensures IsBase(base) <==> ThreeNumbers(base)
  {
    hide Split, Decimal;
    if IsBase(base) {
      JoinThree(base);
      var p := Split('.', base);
      DecimalOfNumber(p[0]); DecimalOfNumber(p[1]); DecimalOfNumber(p[2]);
      assert base == Decimal(Number(p[0])) + "." + Decimal(Number(p[1])) + "." + Decimal(Number(p[2]));
    }
    if ThreeNumbers(base) {
      var a: nat, b: nat, c: nat :| base == Decimal(a) + "." + Decimal(b) + "." + Decimal(c);
      ThreeNumbersSplit(a, b, c);
      NumberOfDecimal(a); NumberOfDecimal(b); NumberOfDecimal(c);
    }
  }

  const MONTHS := [31, 28, 31, 30, 31, 30, 31, 31, 30, 31, 30, 31]

  predicate LeapDay(year: nat, month: nat, day: nat) {
    month == 2 && day == 29 && (year % 400 == 0 || (year % 4 == 0 && year % 100 != 0))
  }

  /** A date and time of day that exist, as fourteen digits. */
  predicate IsMoment(s: string) {
    && |s| == 14 && AllDigits(s)
    && var year, month, day := Number(s[..4]), Number(s[4..6]), Number(s[6..8]);
    && year != 0 && 1 <= month <= 12 && 1 <= day && (day <= MONTHS[month - 1] || LeapDay(year, month, day))
    && Number(s[8..10]) <= 23 && Number(s[10..12]) <= 59 && Number(s[12..]) <= 59
  }

  lemma CalendarIsMoment(s: string)
    requires |s| == 14 && AllDigits(s)
    ensures IsCalendarTime(s) <==> IsMoment(s)
  {
    hide Number;
    var month := Number(s[4..6]);
    assert s[12..14] == s[12..];
    assert 1 <= month <= 12 ==> (MONTHS[month - 1] == if month == 2 then 28 else if month in {4, 6, 9, 11} then 30 else 31);
  }

  /** The suffix of a nightly: a moment, a run and an attempt. */
  ghost predicate NamesAttempt(s: string, run: nat, attempt: nat) {
    exists time: string :: IsMoment(time) && s == time + "." + Decimal(run) + "." + Decimal(attempt)
  }

  ghost predicate IsNightlySuffix(s: string) {
    exists run: nat, attempt: nat :: run > 0 && attempt > 0 && NamesAttempt(s, run, attempt)
  }

  lemma {:induction false} AttemptSplit(s: string, run: nat, attempt: nat)
    requires NamesAttempt(s, run, attempt)
    ensures Split('.', s) == [s[..14], Decimal(run), Decimal(attempt)] && |s| > 14 && IsMoment(s[..14])
  {
    var time: string :| IsMoment(time) && s == time + "." + Decimal(run) + "." + Decimal(attempt);
    NightlyStampParts(time, run, attempt);
    assert s == NightlyStamp(time, run, attempt);
    assert s[..14] == time;
  }

  lemma {:induction false} SuffixIsStamp(s: string)
    ensures (IsStamp(s) && IsCalendarTime(Split('.', s)[0])) <==> IsNightlySuffix(s)
  {
    hide Split, Decimal, Number, IsCalendarTime, IsMoment;
    if IsStamp(s) && IsCalendarTime(Split('.', s)[0]) {
      JoinThree(s);
      var p := Split('.', s);
      CalendarIsMoment(p[0]);
      DecimalOfNumber(p[1]); DecimalOfNumber(p[2]);
      assert NamesAttempt(s, Number(p[1]), Number(p[2]));
    }
    if IsNightlySuffix(s) {
      var run: nat, attempt: nat :| run > 0 && attempt > 0 && NamesAttempt(s, run, attempt);
      AttemptSplit(s, run, attempt);
      NumberOfDecimal(run); NumberOfDecimal(attempt);
      assert |s[..14]| == 14;
      MomentIsDigits(s[..14]);
      CalendarIsMoment(s[..14]);
    }
  }

  lemma MomentIsDigits(s: string)
    requires IsMoment(s)
    ensures |s| == 14 && AllDigits(s)
  {
  }

  /** Which sequences go with which channel. */
  ghost predicate Fits(channel: Channel, sequence: Sequence) {
    match channel
    case Stable => sequence == NoSequence
    case Beta => sequence.Count? && sequence.n > 0
    case RC => sequence.Count? && sequence.n > 0
    case Nightly => sequence.Stamp? && IsNightlySuffix(sequence.s)
  }

  /** An identity is accepted exactly for three numbers with a sequence that fits the channel, and is then printed as
  the base alone, or with the channel and the sequence after a dash. */
  lemma {:induction false} IdentityIsExact(base: string, channel: Channel, sequence: Sequence)
    ensures Identity(base, channel, sequence).Some? <==> ThreeNumbers(base) && Fits(channel, sequence)
    ensures Identity(base, channel, sequence).Some? ==>
      && (channel == Stable ==> Identity(base, channel, sequence).value == base)
      && (channel == Beta ==> Identity(base, channel, sequence).value == base + "-beta." + Decimal(sequence.n))
      && (channel == RC ==> Identity(base, channel, sequence).value == base + "-rc." + Decimal(sequence.n))
      && (channel == Nightly ==> Identity(base, channel, sequence).value == base + "-nightly." + sequence.s)
  {
    hide IsBase, ThreeNumbers, IsStamp, IsCalendarTime, IsNightlySuffix, Decimal;
    BaseIsThreeNumbers(base);
    if sequence.Stamp? {
      SuffixIsStamp(sequence.s);
    }
  }

  ghost predicate IsCommit(s: string) {
    |s| == 40 && forall c :: c in s ==> c in "0123456789abcdef"
  }

  lemma CommitIsSha(s: string)
    ensures IsSha(s) <==> IsCommit(s)
  {
    assert forall c: char :: c in "0123456789abcdef" <==> (IsDigit(c) || 'a' <= c <= 'f');
    if IsSha(s) {
      forall c | c in s ensures c in "0123456789abcdef" {
      }
    }
    if IsCommit(s) {
      forall i | 0 <= i < |s| ensures IsDigit(s[i]) || 'a' <= s[i] <= 'f' {
        assert s[i] in s;
      }
    }
  }

  /** The validator's checks of a plan on its own, spelled out. */
  lemma {:induction false} ValidPlanIsExact(plan: Plan)
    ensures ValidPlan(plan) <==>
      && plan.schema == 1 && ThreeNumbers(plan.base) && Fits(plan.channel, plan.sequence)
      && Identity(plan.base, plan.channel, plan.sequence) == Some(plan.version) && plan.tag == "v" + plan.version
      && IsCommit(plan.source)
      && (plan.build == None || (plan.build.Some? && 1 <= plan.build.value <= 2_100_000_000))
  {
    hide Identity, IsSha, IsCommit, ThreeNumbers, Fits;
    IdentityIsExact(plan.base, plan.channel, plan.sequence);
    CommitIsSha(plan.source);
  }

  // ---------------------------------------------------------------- which exist

  /** The nightly's run and attempt are small enough for one PEP 440 number. */
  ghost predicate AttemptFits(plan: Plan) {
    forall run: nat, attempt: nat :: plan.sequence.Stamp? && NamesAttempt(plan.sequence.s, run, attempt) ==>
      attempt < 1_000_000 && run * 1_000_000 + attempt < 0x1_0000_0000_0000_0000 - 1
  }

  /** The projection a declaration asks for exists. */
  ghost predicate Projectable(plan: Plan, d: Declaration) {
    && (plan.channel == Nightly && d.ecosystem == Pep440 ==> AttemptFits(plan))
    && (d.kind == Build ==> plan.build.Some?)
    && (d.kind == AppleBuild ==> plan.build.Some? && plan.build.value <= 99_990_000)
  }

  lemma {:induction false} NightlyAttempt(plan: Plan) returns (run: nat, attempt: nat)
    requires ValidPlan(plan) && plan.channel == Nightly
    ensures plan.sequence.Stamp? && run > 0 && attempt > 0 && NamesAttempt(plan.sequence.s, run, attempt)
    ensures AttemptFits(plan) <==> NightlyNumber(run, attempt).Some?
    ensures NightlyOf(plan.sequence.s) == NightlyNumber(run, attempt)
  {
    hide NamesAttempt, Decimal, Number, Split, NightlyNumber, ThreeNumbers;
    IdentityIsExact(plan.base, plan.channel, plan.sequence);
    var s := plan.sequence.s;
    run, attempt :| run > 0 && attempt > 0 && NamesAttempt(s, run, attempt);
    AttemptSplit(s, run, attempt);
    NumberOfDecimal(run); NumberOfDecimal(attempt);
    forall r: nat, a: nat | NamesAttempt(s, r, a) ensures r == run && a == attempt {
      AttemptSplit(s, r, a);
      assert [s[..14], Decimal(run), Decimal(attempt)][1] == Decimal(r);
      assert [s[..14], Decimal(run), Decimal(attempt)][2] == Decimal(a);
      NumberOfDecimal(r); NumberOfDecimal(a);
    }
    NightlyNumberFits(run, attempt);
  }

  lemma NightlyNumberFits(run: nat, attempt: nat)
    ensures NightlyNumber(run, attempt).Some? <==> attempt < 1_000_000 && run * 1_000_000 + attempt < 0x1_0000_0000_0000_0000 - 1
  {
  }

  lemma {:induction false} PackageExists(plan: Plan, ecosystem: Ecosystem)
    requires ValidPlan(plan)
    ensures PackageText(plan, ecosystem).Some? <==> (plan.channel == Nightly && ecosystem == Pep440 ==> AttemptFits(plan))
  {
    hide AttemptFits, Identity, ThreeNumbers, IsNightlySuffix, NightlyNumber, Split, Number;
    IdentityIsExact(plan.base, plan.channel, plan.sequence);
    if plan.channel == Nightly && ecosystem == Pep440 {
      var run, attempt := NightlyAttempt(plan);
    }
  }

  /** A valid plan projects into a declared field exactly when the number it needs is there and in range. */
  lemma {:induction false} ProjectionExists(plan: Plan, d: Declaration)
    requires ValidPlan(plan)
    ensures ProjectedValue(plan, d).Some? <==> Projectable(plan, d)
  {
    hide PackageText, AttemptFits, Identity, AppleText;
    PackageExists(plan, d.ecosystem);
  }

  // ------------------------------------------------------------ what they read

  /** A prefix goes in front of what is projected without it; a number becomes its digits. */
  lemma {:induction false} PrefixIsPrepended(plan: Plan, d: Declaration)
    ensures ProjectedValue(plan, d).Some? <==> ProjectedValue(plan, d.(prefix := "")).Some?
    ensures ProjectedValue(plan, d).Some? ==> match ProjectedValue(plan, d.(prefix := "")).value
      case Words(s) => ProjectedValue(plan, d).value == Words(d.prefix + s)
      case Whole(n) =>
        if d.prefix == "" then ProjectedValue(plan, d).value == Whole(n)
        else n >= 0 ==> ProjectedValue(plan, d).value == Words(d.prefix + Decimal(n))
  {
    hide Project;
    assert d.(prefix := "").prefix == "";
    if d.prefix == "" {
      assert d.(prefix := "") == d;
      var v := ProjectedValue(plan, d);
      assert v.Some? && v.value.Words? ==> "" + v.value.s == v.value.s;
    }
  }

  /** Without a prefix only the build number is a number. */
  lemma KindOfProjection(plan: Plan, d: Declaration)
    requires d.prefix == "" && ProjectedValue(plan, d).Some?
    ensures ProjectedValue(plan, d).value.Whole? <==> d.kind == Build
  {
    hide PackageText, AppleText;
  }

  /** The full projection is the tag without its "v" and names one release; the base is what stands before its dash. */
  lemma {:induction false} FullNamesRelease(p: Plan, q: Plan, d: Declaration)
    requires ValidPlan(p) && ValidPlan(q) && d.kind == FullVersion && d.prefix == ""
    requires ProjectedValue(p, d).Some?
    ensures ProjectedValue(p, d).value.Words? && p.tag == ['v'] + ProjectedValue(p, d).value.s
    ensures ProjectedValue(p, d) == ProjectedValue(q, d) ==> p.base == q.base && p.channel == q.channel && p.sequence == q.sequence
    ensures ProjectedValue(p, d.(kind := BaseVersion)) == Some(Words(p.base))
    ensures Split('-', ProjectedValue(p, d).value.s)[0] == p.base
    ensures ProjectedValue(p, d).value.s == p.base <==> p.channel == Stable
  {
    hide Identity, PackageText, Split, Decimal;
    IdentityParts(p.base, p.channel, p.sequence);
    if p.version == p.base {
      BaseIsWhole(p);
    }
    if p.channel == Stable {
      assert p.version == p.base by { IdentityIsExact(p.base, p.channel, p.sequence); }
    }
    if ProjectedValue(p, d) == ProjectedValue(q, d) {
      IdentityIsInjective(p.base, p.channel, p.sequence, q.base, q.channel, q.sequence);
    }
  }

  lemma BaseIsWhole(p: Plan)
    requires ValidPlan(p) && p.version == p.base
    ensures p.channel == Stable
  {
    assert Identity(p.base, Stable, NoSequence) == Some(p.base);
    IdentityIsInjective(p.base, p.channel, p.sequence, p.base, Stable, NoSequence);
  }

  /** Published under its base alone: a stable release, or a candidate whose bytes may become one. */
  predicate UnderBase(plan: Plan) {
    plan.channel == Stable || (plan.channel == RC && plan.promotion == PromoteBytes)
  }

  /** A nightly's PEP 440 text: a number made of run and attempt behind the base. */
  ghost predicate IsDevText(w: string, base: string, s: string) {
    exists n: nat :: w == base + ".dev" + Decimal(n) && NamesAttempt(s, n / 1_000_000, n % 1_000_000)
  }

  /** The package projection: the base alone, the tag without its "v", or the text PEP 440 has for the channel. */
  lemma {:induction false} PackageIsExact(plan: Plan, d: Declaration)
    requires ValidPlan(plan) && d.kind == Package && d.prefix == "" && ProjectedValue(plan, d).Some?
    ensures ProjectedValue(plan, d).value.Words?
    ensures var w := ProjectedValue(plan, d).value.s;
      && (w == plan.base <==> UnderBase(plan))
      && (d.ecosystem == Semver && !UnderBase(plan) ==> plan.tag == "v" + w)
      && (d.ecosystem == Pep440 && plan.channel == Beta ==> w == plan.base + "b" + Decimal(plan.sequence.n))
      && (d.ecosystem == Pep440 && plan.channel == RC && !UnderBase(plan) ==> w == plan.base + "rc" + Decimal(plan.sequence.n))
      && (d.ecosystem == Pep440 && plan.channel == Nightly ==> IsDevText(w, plan.base, plan.sequence.s))
  {
    hide Identity, Split, NightlyNumber, Decimal;
    ChannelOfSequence(plan);
    PackagesNameReleases(plan, plan, d.ecosystem);
    if d.ecosystem == Pep440 && plan.channel == Nightly {
      DevText(plan);
    }
  }

  lemma {:induction false} DevText(plan: Plan)
    requires ValidPlan(plan) && plan.channel == Nightly && PackageText(plan, Pep440).Some?
    ensures IsDevText(PackageText(plan, Pep440).value, plan.base, plan.sequence.s)
  {
    hide Identity, Split, NightlyNumber, Decimal, NamesAttempt, AttemptFits;
    var run, attempt := NightlyAttempt(plan);
    var n := NightlyNumber(run, attempt).value;
    NightlyNumberParts(run, attempt);
    assert PackageText(plan, Pep440).value == plan.base + ".dev" + Decimal(n);
  }

  lemma NightlyNumberParts(run: nat, attempt: nat)
    requires NightlyNumber(run, attempt).Some?
    ensures NightlyNumber(run, attempt).value / 1_000_000 == run && NightlyNumber(run, attempt).value % 1_000_000 == attempt
  {
  }

  /** Two plans share a package projection only if they share the base and are both published under it, or are the
  same beta, the same candidate, or the same run and attempt of a nightly. */
  lemma {:induction false} PackageNamesRelease(p: Plan, q: Plan, d: Declaration, run: nat, attempt: nat)
    requires ValidPlan(p) && ValidPlan(q) && d.kind == Package
    requires ProjectedValue(p, d).Some? && ProjectedValue(p, d) == ProjectedValue(q, d)
    ensures p.base == q.base && (UnderBase(p) <==> UnderBase(q))
    ensures !UnderBase(p) ==> p.channel == q.channel && (p.sequence.Count? ==> p.sequence == q.sequence)
    ensures !UnderBase(p) && p.channel == Nightly ==> p.sequence.Stamp? && q.sequence.Stamp?
    ensures !UnderBase(p) && p.channel == Nightly && NamesAttempt(p.sequence.s, run, attempt) ==>
      NamesAttempt(q.sequence.s, run, attempt)
  {
    hide Identity, Split, NamesAttempt, PackageText, AttemptFits;
    assert PackageText(p, d.ecosystem) == PackageText(q, d.ecosystem) by {
      if d.prefix != "" {
        var s, t := PackageText(p, d.ecosystem).value, PackageText(q, d.ecosystem).value;
        assert d.prefix + s == d.prefix + t;
        assert s == (d.prefix + s)[|d.prefix|..] == (d.prefix + t)[|d.prefix|..] == t;
      }
    }
    PackagesNameReleases(p, q, d.ecosystem);
    ChannelOfSequence(p); ChannelOfSequence(q);
    if !UnderBase(p) && p.channel == Nightly && NamesAttempt(p.sequence.s, run, attempt) {
      var r, a := NightlyAttempt(q);
      AttemptSplit(p.sequence.s, run, attempt);
      AttemptSplit(q.sequence.s, r, a);
      assert Split('.', p.sequence.s)[1..][0] == Decimal(run) && Split('.', p.sequence.s)[1..][1] == Decimal(attempt);
      assert Split('.', q.sequence.s)[1..][0] == Decimal(r) && Split('.', q.sequence.s)[1..][1] == Decimal(a);
      NumberOfDecimal(run); NumberOfDecimal(attempt); NumberOfDecimal(r); NumberOfDecimal(a);
    }
  }

  /** An Apple version: three numbers in range that stand for n. */
  ghost predicate IsAppleText(s: string, n: int) {
    exists a: nat, b: nat, c: nat ::
      && s == Decimal(a) + "." + Decimal(b) + "." + Decimal(c)
      && 1 <= a <= 9999 && b <= 99 && c <= 99 && n == (a - 1) * 10000 + b * 100 + c + 1
  }

  /** The build projection is the reserved number, and the Apple projection three numbers that stand for it. */
  lemma {:induction false} NumbersAreTheBuild(plan: Plan, d: Declaration)
    requires ValidPlan(plan) && d.prefix == "" && ProjectedValue(plan, d).Some?
    ensures d.kind == Build ==> plan.build.Some? && ProjectedValue(plan, d).value == Whole(plan.build.value)
    ensures d.kind == AppleBuild ==> plan.build.Some? && ProjectedValue(plan, d).value.Words?
    ensures d.kind == AppleBuild ==> IsAppleText(ProjectedValue(plan, d).value.s, plan.build.value)
  {
    hide Identity, PackageText, AppleText;
    if d.kind == AppleBuild {
      AppleTextStandsFor(plan.build.value);
    }
  }

  lemma {:induction false} AppleTextStandsFor(n: int)
    requires 1 <= n <= 99_990_000
    ensures IsAppleText(AppleText(n), n)
  {
    hide Decimal;
    var (a, b, c) := AppleTriple(n);
    AppleBijection(n, (a, b, c));
    assert AppleText(n) == Decimal(a) + "." + Decimal(b) + "." + Decimal(c);
  }

  /** An Apple text stands for one number. */
  lemma {:induction false} AppleTextIsExact(s: string, m: int, n: int)
    requires IsAppleText(s, m) && IsAppleText(s, n)
    ensures m == n
  {
    hide Decimal, Split;
    var a: nat, b: nat, c: nat :| s == Decimal(a) + "." + Decimal(b) + "." + Decimal(c)
      && 1 <= a <= 9999 && b <= 99 && c <= 99 && m == (a - 1) * 10000 + b * 100 + c + 1;
    var d: nat, e: nat, f: nat :| s == Decimal(d) + "." + Decimal(e) + "." + Decimal(f)
      && 1 <= d <= 9999 && e <= 99 && f <= 99 && n == (d - 1) * 10000 + e * 100 + f + 1;
    ThreeNumbersSplit(a, b, c);
    ThreeNumbersSplit(d, e, f);
    var p := Split('.', s);
    assert p[0] == Decimal(a) == Decimal(d) && p[1] == Decimal(b) == Decimal(e) && p[2] == Decimal(c) == Decimal(f);
    NumberOfDecimal(a); NumberOfDecimal(b); NumberOfDecimal(c);
    NumberOfDecimal(d); NumberOfDecimal(e); NumberOfDecimal(f);
  }
}
