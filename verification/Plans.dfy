/** Release identities, plans and the projections of a plan into declared version fields. */
module Plans {
  import opened Text
  import opened Wrappers

  const MAX_BUILD := 2_100_000_000

  datatype Channel = Nightly | Beta | RC | Stable

  datatype Sequence = NoSequence | Count(n: int) | Stamp(s: string)

  datatype Promotion = PromoteBytes | FinalBuild

  datatype Format = JsonField(field: seq<string>, package: Option<string>) | NpmLock(name: string)

  datatype Kind = BaseVersion | FullVersion | Package | Build | AppleBuild

  datatype Ecosystem = Semver | Pep440

  datatype Declaration = Declaration(path: string, format: Format, kind: Kind, ecosystem: Ecosystem, prefix: string)

  datatype Policy = Policy(floor: int, promotion: Promotion, files: seq<Declaration>)

  /** The policy digest is injective, so a plan names its policy itself. */
  datatype Plan = Plan(
    schema: int,
    base: string,
    version: string,
    channel: Channel,
    sequence: Sequence,
    tag: string,
    source: string,
    build: Option<int>,
    policy: Policy,
    promotion: Promotion)

  // -------------------------------------------------------------------- identity

  predicate IsBase(s: string) {
    var p := Split('.', s);
    |p| == 3 && Canonical(p[0]) && Canonical(p[1]) && Canonical(p[2])
  }

  predicate PositiveDigits(s: string) {
    Canonical(s) && s[0] != '0'
  }

  predicate IsStamp(s: string) {
    var p := Split('.', s);
    |p| == 3 && |p[0]| == 14 && AllDigits(p[0]) && PositiveDigits(p[1]) && PositiveDigits(p[2])
  }

  function DaysInMonth(year: nat, month: nat): nat {
    if month == 2 then
      (if year % 4 == 0 && (year % 100 != 0 || year % 400 == 0) then 29 else 28)
    else if month in {4, 6, 9, 11} then 30 else 31
  }

  /** `datetime.strptime(..., "%Y%m%d%H%M%S")` accepts. */
  predicate IsCalendarTime(s: string)
    requires |s| == 14 && AllDigits(s)
  {
    var year, month, day := Number(s[..4]), Number(s[4..6]), Number(s[6..8]);
    && 1 <= year && 1 <= month <= 12 && 1 <= day <= DaysInMonth(year, month)
    && Number(s[8..10]) < 24 && Number(s[10..12]) < 60 && Number(s[12..14]) < 60
  }

  function ChannelName(channel: Channel): string {
    match channel
    case Nightly => "nightly"
    case Beta => "beta"
    case RC => "rc"
    case Stable => "stable"
  }

  /** `_identity`. */
  function Identity(base: string, channel: Channel, sequence: Sequence): Option<string> {
    if !IsBase(base) then None
    else match (channel, sequence)
      case (Stable, NoSequence) => Some(base)
      case (Nightly, Stamp(s)) =>
        if IsStamp(s) && IsCalendarTime(Split('.', s)[0]) then Some(base + "-nightly." + s) else None
      case (Beta, Count(n)) => if n > 0 then Some(base + "-beta." + Decimal(n)) else None
      case (RC, Count(n)) => if n > 0 then Some(base + "-rc." + Decimal(n)) else None
      case _ => None
  }

  function SequenceText(sequence: Sequence): string
    requires sequence.Count? ==> sequence.n > 0
  {
    match sequence
    case NoSequence => ""
    case Count(n) => Decimal(n)
    case Stamp(s) => s
  }

  lemma BaseHasNoDash(base: string)
    requires IsBase(base)
    ensures '-' !in base
  {
    PartsOf('.', base);
    JoinChars('.', Split('.', base), '-');
  }

  lemma SequenceHasNoDash(base: string, channel: Channel, sequence: Sequence)
    requires Identity(base, channel, sequence).Some?
    ensures '-' !in SequenceText(sequence)
  {
    match sequence
    case NoSequence =>
    case Count(n) => NumberOfDecimal(n);
    case Stamp(s) =>
      PartsOf('.', s);
      JoinChars('.', Split('.', s), '-');
  }

  /** The parts of a printed identity around its dash and the first dot after it. */
  lemma IdentityParts(base: string, channel: Channel, sequence: Sequence)
    requires Identity(base, channel, sequence).Some?
    ensures var parts := Split('-', Identity(base, channel, sequence).value);
      && parts[0] == base
      && (channel == Stable <==> |parts| == 1)
      && (channel != Stable ==>
            && |parts| == 2
            && Split('.', parts[1]) == [ChannelName(channel)] + Split('.', SequenceText(sequence)))
  {
    hide IsBase, IsStamp, IsCalendarTime, Split;
    BaseHasNoDash(base);
    SequenceHasNoDash(base, channel, sequence);
    if channel == Stable {
      SplitPart('-', base);
    } else {
      var tail := ChannelName(channel) + "." + SequenceText(sequence);
      assert Identity(base, channel, sequence).value == base + "-" + tail;
      SplitAfterPart('-', base, tail);
      SplitPart('-', tail);
      SplitAfterPart('.', ChannelName(channel), SequenceText(sequence));
    }
  }

  /** Printing is injective: a version text determines base, channel and sequence. */
  lemma IdentityIsInjective(b1: string, c1: Channel, s1: Sequence, b2: string, c2: Channel, s2: Sequence)
    requires Identity(b1, c1, s1).Some? && Identity(b1, c1, s1) == Identity(b2, c2, s2)
    ensures b1 == b2 && c1 == c2 && s1 == s2
  {
    IdentityParts(b1, c1, s1);
    IdentityParts(b2, c2, s2);
    if c1 != Stable {
      assert ([ChannelName(c1)] + Split('.', SequenceText(s1)))[0] == ([ChannelName(c2)] + Split('.', SequenceText(s2)))[0];
      assert ([ChannelName(c1)] + Split('.', SequenceText(s1)))[1..] == ([ChannelName(c2)] + Split('.', SequenceText(s2)))[1..];
      SplitInjective('.', SequenceText(s1), SequenceText(s2));
      if s1.Count? {
        NumberOfDecimal(s1.n);
        NumberOfDecimal(s2.n);
      }
    }
  }

  /** The suffix a nightly run freezes: UTC time, run and attempt. */
  function NightlyStamp(time: string, run: nat, attempt: nat): string {
    time + "." + Decimal(run) + "." + Decimal(attempt)
  }

  lemma NightlyStampParts(time: string, run: nat, attempt: nat)
    requires AllDigits(time)
    ensures Split('.', NightlyStamp(time, run, attempt)) == [time, Decimal(run), Decimal(attempt)]
  {
    NumberOfDecimal(run);
    NumberOfDecimal(attempt);
    assert NightlyStamp(time, run, attempt) == time + "." + (Decimal(run) + "." + Decimal(attempt));
    SplitAfterPart('.', time, Decimal(run) + "." + Decimal(attempt));
    SplitAfterPart('.', Decimal(run), Decimal(attempt));
    SplitPart('.', Decimal(attempt));
  }

  lemma NightlyStampNamesRun(t1: string, r1: nat, a1: nat, t2: string, r2: nat, a2: nat)
    requires AllDigits(t1) && AllDigits(t2)
    requires NightlyStamp(t1, r1, a1) == NightlyStamp(t2, r2, a2)
    ensures t1 == t2 && r1 == r2 && a1 == a2
  {
    NightlyStampParts(t1, r1, a1);
    NightlyStampParts(t2, r2, a2);
    assert [t1, Decimal(r1), Decimal(a1)] == [t2, Decimal(r2), Decimal(a2)];
    assert [t1, Decimal(r1), Decimal(a1)][0] == t2;
    assert [t1, Decimal(r1), Decimal(a1)][1] == Decimal(r2);
    assert [t1, Decimal(r1), Decimal(a1)][2] == Decimal(a2);
    NumberOfDecimal(r1); NumberOfDecimal(r2); NumberOfDecimal(a1); NumberOfDecimal(a2);
  }

  // ----------------------------------------------------------------- projections

  datatype Value = Words(s: string) | Whole(n: int)

  /** `number = int(run) * 1_000_000 + int(attempt)` with its two bounds. */
  function NightlyNumber(run: nat, attempt: nat): Option<nat> {
    if attempt < 1_000_000 && run * 1_000_000 + attempt <= 0xFFFF_FFFF_FFFF_FFFE
    then Some(run * 1_000_000 + attempt) else None
  }

  function AppleTriple(build: int): (int, int, int)
    requires 0 < build
  {
    var n := build - 1;
    (n / 10000 + 1, n / 100 % 100, n % 100)
  }

  function AppleText(build: int): (s: string)
    requires 0 < build
  {
    var (a, b, c) := AppleTriple(build);
    Decimal(a) + "." + Decimal(b) + "." + Decimal(c)
  }

  function Pep440Package(plan: Plan): Option<string> {
    match (plan.channel, plan.sequence)
    case (Beta, Count(n)) => if n > 0 then Some(plan.base + "b" + Decimal(n)) else None
    case (RC, Count(n)) => if n > 0 then Some(plan.base + "rc" + Decimal(n)) else None
    case (Nightly, Stamp(s)) =>
      var p := Split('.', s);
      if |p| == 3 && PositiveDigits(p[1]) && PositiveDigits(p[2]) then
        match NightlyNumber(Number(p[1]), Number(p[2]))
        case None => None
        case Some(number) => Some(plan.base + ".dev" + Decimal(number))
      else None
    case _ => Some(plan.version)
  }

  function PackageText(plan: Plan, ecosystem: Ecosystem): Option<string> {
    if plan.channel == RC && plan.promotion == PromoteBytes then Some(plan.base)
    else if ecosystem == Pep440 then Pep440Package(plan)
    else Some(plan.version)
  }

  /** `projections`: a nightly too large for PEP 440 fails whichever projection is wanted. */
  function Project(plan: Plan, kind: Kind, ecosystem: Ecosystem): Option<Value> {
    match PackageText(plan, ecosystem)
    case None => None
    case Some(package) =>
      match kind
      case BaseVersion => Some(Words(plan.base))
      case FullVersion => Some(Words(plan.version))
      case Package => Some(Words(package))
      case Build => if plan.build.Some? then Some(Whole(plan.build.value)) else None
      case AppleBuild =>
        if plan.build.Some? && 0 < plan.build.value <= 99_990_000 then Some(Words(AppleText(plan.build.value)))
        else None
  }

  function ValueText(v: Value): string {
    match v
    case Words(s) => s
    case Whole(n) => SignedDecimal(n)
  }

  /** `projected_value`. */
  function ProjectedValue(plan: Plan, d: Declaration): Option<Value> {
    match Project(plan, d.kind, d.ecosystem)
    case None => None
    case Some(v) => Some(if d.prefix != "" then Words(d.prefix + ValueText(v)) else v)
  }

  // ----------------------------------------------------------------------- plans

  predicate IsSha(s: string) {
    |s| == 40 && forall i :: 0 <= i < |s| ==> IsDigit(s[i]) || 'a' <= s[i] <= 'f'
  }

  predicate ValidPolicy(policy: Policy) {
    && 0 <= policy.floor < MAX_BUILD
    && policy.files != []
    && (forall i :: 0 <= i < |policy.files| && policy.files[i].format.JsonField? ==> policy.files[i].format.field != [])
    && forall i, j :: 0 <= i < j < |policy.files| ==>
      (policy.files[i].path, policy.files[i].format) != (policy.files[j].path, policy.files[j].format)
  }

  predicate ProjectsAll(plan: Plan, policy: Policy) {
    forall i :: 0 <= i < |policy.files| ==> ProjectedValue(plan, policy.files[i]).Some?
  }

  /** `validate_plan(plan)`. */
  predicate ValidPlan(plan: Plan) {
    && plan.schema == 1
    && Identity(plan.base, plan.channel, plan.sequence) == Some(plan.version)
    && plan.tag == "v" + plan.version
    && IsSha(plan.source)
    && (plan.build.None? || 0 < plan.build.value <= MAX_BUILD)
  }

  /** `validate_plan(plan, policy, source_sha)`. */
  predicate ValidPlanFor(plan: Plan, policy: Policy, source: string) {
    && ValidPlan(plan) && ValidPolicy(policy)
    && plan.policy == policy && plan.promotion == policy.promotion
    && (plan.build.None? || plan.build.value > policy.floor)
    && ProjectsAll(plan, policy)
    && plan.source == source
  }

  /** `create_plan`. */
  function CreatePlan(base: string, channel: Channel, sequence: Sequence, source: string, policy: Policy, build: Option<int>): Option<Plan> {
    if !ValidPolicy(policy) then None
    else match Identity(base, channel, sequence)
      case None => None
      case Some(version) =>
        if !IsSha(source) || (build.Some? && !(0 < build.value <= MAX_BUILD && build.value > policy.floor)) then None
        else
          var plan := Plan(1, base, version, channel, sequence, "v" + version, source, build, policy, policy.promotion);
          if ProjectsAll(plan, policy) then Some(plan) else None
  }

  /** The validator accepts exactly what the creator makes: a plan is valid for a policy and a source when its own
  base, channel, sequence, source and build number, under that policy, create it again; it is then valid for no
  other policy or source. */
  lemma {:induction false} ValidPlansAreCreated(plan: Plan, policy: Policy, sha: string)
    ensures ValidPlanFor(plan, policy, sha) <==>
      plan.source == sha && CreatePlan(plan.base, plan.channel, plan.sequence, sha, policy, plan.build) == Some(plan)
    ensures ValidPlanFor(plan, policy, sha) ==>
      forall other, source :: ValidPlanFor(plan, other, source) <==> other == policy && source == sha
  {
    hide Identity, ValidPolicy, IsSha, ProjectedValue;
    var version := Identity(plan.base, plan.channel, plan.sequence);
    if plan.source == sha && version.Some? {
      var made := Plan(1, plan.base, version.value, plan.channel, plan.sequence, "v" + version.value, sha, plan.build, policy, policy.promotion);
      assert ValidPlan(plan) && plan.policy == policy && plan.promotion == policy.promotion ==> plan == made;
    }
  }

  lemma TagsNameReleases(p: Plan, q: Plan)
    requires ValidPlan(p) && ValidPlan(q) && p.tag == q.tag
    ensures p.base == q.base && p.channel == q.channel && p.sequence == q.sequence
  {
    assert p.version == p.tag[1..] && q.version == q.tag[1..];
    IdentityIsInjective(p.base, p.channel, p.sequence, q.base, q.channel, q.sequence);
  }

  // ---------------------------------------------------------------- package texts

  /** What may follow a base in a package text: nothing, or something that no base can go on with. */
  predicate IsSuffix(s: string) {
    || s == ""
    || !(IsDigit(s[0]) || s[0] == '.')
    || (s[0] == '.' && |s| > 1 && !(IsDigit(s[1]) || s[1] == '.'))
  }

  lemma BaseChars(base: string, i: nat)
    requires IsBase(base) && i < |base|
    ensures IsDigit(base[i]) || base[i] == '.'
  {
    PartsOf('.', base);
    if !(IsDigit(base[i]) || base[i] == '.') {
      JoinChars('.', Split('.', base), base[i]);
    }
  }

  lemma ShorterBase(b: string, s: string, c: string, t: string)
    requires IsBase(b) && IsBase(c) && IsSuffix(s) && b + s == c + t
    ensures |c| <= |b|
  {
    hide IsBase;
    if |b| < |c| {
      assert (b + s)[|b|] == s[0] == c[|b|];
      BaseChars(c, |b|);
      assert s[0] == '.' && (b + s)[|b| + 1] == s[1];
      if |b| + 1 < |c| {
        assert (c + t)[|b| + 1] == c[|b| + 1];
        BaseChars(c, |b| + 1);
      } else {
        assert c == (c + t)[..|c|] == (b + s)[..|b| + 1] == b + ['.'];
        NoTrailingDot(b);
      }
      assert false;
    }
  }

  lemma NoTrailingDot(base: string)
    requires IsBase(base)
    ensures !IsBase(base + ['.'])
  {
    SplitAtEnd('.', base);
  }

  lemma BaseAndSuffix(b: string, s: string, c: string, t: string)
    requires IsBase(b) && IsBase(c) && IsSuffix(s) && IsSuffix(t) && b + s == c + t
    ensures b == c && s == t
  {
    hide IsBase, IsSuffix;
    ShorterBase(b, s, c, t);
    ShorterBase(c, t, b, s);
    assert b == (b + s)[..|b|] && c == (c + t)[..|b|];
    assert s == (b + s)[|b|..] && t == (c + t)[|b|..];
  }

  /** Published under the bare base: stable, and an RC whose bytes may become stable. */
  predicate Bare(plan: Plan) {
    plan.channel == Stable || (plan.channel == RC && plan.promotion == PromoteBytes)
  }

  /** The package text of a valid plan is its base and a suffix. */
  function PackageSuffix(plan: Plan, ecosystem: Ecosystem): string
    requires ValidPlan(plan)
  {
    if Bare(plan) then ""
    else if ecosystem == Semver then "-" + ChannelName(plan.channel) + "." + SequenceText(plan.sequence)
    else
      match plan.sequence
      case Count(n) => (if plan.channel == Beta then "b" else "rc") + Decimal(n)
      case Stamp(s) => if NightlyOf(s).Some? then ".dev" + Decimal(NightlyOf(s).value) else ""
      case NoSequence => ""
  }

  /** The PEP 440 number of a nightly suffix. */
  function NightlyOf(s: string): Option<nat> {
    var p := Split('.', s);
    if |p| == 3 && PositiveDigits(p[1]) && PositiveDigits(p[2]) then NightlyNumber(Number(p[1]), Number(p[2])) else None
  }

  lemma PackageParts(plan: Plan, ecosystem: Ecosystem)
    requires ValidPlan(plan) && PackageText(plan, ecosystem).Some?
    ensures IsBase(plan.base) && IsSuffix(PackageSuffix(plan, ecosystem))
    ensures PackageText(plan, ecosystem).value == plan.base + PackageSuffix(plan, ecosystem)
  {
    hide IsBase, NightlyNumber, IsStamp, IsCalendarTime;
    assert plan.base + "" == plan.base;
    if plan.sequence.Stamp? && ecosystem == Semver {
      assert plan.version == plan.base + ("-nightly." + plan.sequence.s);
    }
  }

  lemma NightlyOfIsExact(s: string, t: string)
    requires NightlyOf(s).Some? && NightlyOf(s) == NightlyOf(t)
    ensures Split('.', s)[1..] == Split('.', t)[1..]
  {
    hide Number, Split;
    var p, q := Split('.', s), Split('.', t);
    NightlyOrder(Number(p[1]), Number(p[2]), Number(q[1]), Number(q[2]));
    NightlyOrder(Number(q[1]), Number(q[2]), Number(p[1]), Number(p[2]));
    DecimalOfNumber(p[1]); DecimalOfNumber(p[2]); DecimalOfNumber(q[1]); DecimalOfNumber(q[2]);
  }

  lemma DecimalIsInjective(m: nat, n: nat, prefix: string)
    requires prefix + Decimal(m) == prefix + Decimal(n)
    ensures m == n
  {
    assert Decimal(m) == (prefix + Decimal(m))[|prefix|..] == Decimal(n);
    NumberOfDecimal(m);
    NumberOfDecimal(n);
  }

  lemma ChannelOfSequence(plan: Plan)
    requires ValidPlan(plan)
    ensures plan.sequence.NoSequence? <==> plan.channel == Stable
    ensures plan.sequence.Stamp? <==> plan.channel == Nightly
    ensures plan.sequence.Count? ==> plan.sequence.n > 0
  {
    hide IsBase, IsStamp, IsCalendarTime;
  }

  lemma BareSuffix(plan: Plan, ecosystem: Ecosystem)
    requires ValidPlan(plan) && PackageText(plan, ecosystem).Some?
    ensures PackageSuffix(plan, ecosystem) == "" <==> Bare(plan)
    ensures !Bare(plan) && ecosystem == Pep440 && plan.sequence.Stamp? ==> NightlyOf(plan.sequence.s).Some?
  {
    hide IsBase, Identity, NightlyNumber, IsStamp;
    ChannelOfSequence(plan);
  }

  lemma SuffixNames(p: Plan, q: Plan, ecosystem: Ecosystem)
    requires ValidPlan(p) && ValidPlan(q) && !Bare(p) && !Bare(q) && p.base == q.base
    requires PackageText(p, ecosystem).Some? && PackageText(q, ecosystem).Some?
    requires PackageSuffix(p, ecosystem) == PackageSuffix(q, ecosystem)
    ensures p.channel == q.channel && (p.sequence.Count? ==> p.sequence == q.sequence)
    ensures p.sequence.Stamp? ==> q.sequence.Stamp? && Split('.', p.sequence.s)[1..] == Split('.', q.sequence.s)[1..]
  {
    hide IsBase, Identity, NightlyOf, Split, Decimal, PackageText, ValidPlan, SequenceText;
    ChannelOfSequence(p); ChannelOfSequence(q);
    BareSuffix(p, ecosystem); BareSuffix(q, ecosystem);
    if ecosystem == Semver {
      PackageParts(p, ecosystem); PackageParts(q, ecosystem);
      SemverNames(p, q);
    } else {
      var s, t := PackageSuffix(p, ecosystem), PackageSuffix(q, ecosystem);
      assert p.sequence.Count? && p.channel == Beta ==> s[0] == 'b';
      assert p.sequence.Count? && p.channel == RC ==> s[0] == 'r';
      assert p.sequence.Stamp? ==> s[0] == '.';
      assert q.sequence.Count? && q.channel == Beta ==> t[0] == 'b';
      assert q.sequence.Count? && q.channel == RC ==> t[0] == 'r';
      assert q.sequence.Stamp? ==> t[0] == '.';
      if p.sequence.Count? {
        DecimalIsInjective(p.sequence.n, q.sequence.n, if p.channel == Beta then "b" else "rc");
      } else {
        DecimalIsInjective(NightlyOf(p.sequence.s).value, NightlyOf(q.sequence.s).value, ".dev");
        NightlyOfIsExact(p.sequence.s, q.sequence.s);
      }
    }
  }

  lemma SemverNames(p: Plan, q: Plan)
    requires ValidPlan(p) && ValidPlan(q) && !Bare(p) && !Bare(q)
    requires PackageText(p, Semver) == PackageText(q, Semver)
    ensures p.channel == q.channel && p.sequence == q.sequence
  {
    hide Identity;
    IdentityIsInjective(p.base, p.channel, p.sequence, q.base, q.channel, q.sequence);
  }

  /** Two plans share a package text only if they share the base and are both published under the bare base, or
  are the same beta, the same RC, or the same run and attempt of a nightly. */
  lemma {:induction false} PackagesNameReleases(p: Plan, q: Plan, ecosystem: Ecosystem)
    requires ValidPlan(p) && ValidPlan(q)
    requires PackageText(p, ecosystem).Some? && PackageText(p, ecosystem) == PackageText(q, ecosystem)
    ensures p.base == q.base && (Bare(p) <==> Bare(q)) && (Bare(p) <==> PackageText(p, ecosystem).value == p.base)
    ensures !Bare(p) ==> p.channel == q.channel && (p.sequence.Count? ==> p.sequence == q.sequence)
    ensures !Bare(p) && p.sequence.Stamp? ==> q.sequence.Stamp?
    ensures !Bare(p) && p.sequence.Stamp? ==> Split('.', p.sequence.s)[1..] == Split('.', q.sequence.s)[1..]
  {
    hide IsBase, ValidPlan, PackageText, PackageSuffix, Split, Bare;
    PackageParts(p, ecosystem);
    PackageParts(q, ecosystem);
    BaseAndSuffix(p.base, PackageSuffix(p, ecosystem), q.base, PackageSuffix(q, ecosystem));
    BareSuffix(p, ecosystem);
    BareSuffix(q, ecosystem);
    assert |p.base + PackageSuffix(p, ecosystem)| == |p.base| + |PackageSuffix(p, ecosystem)|;
    assert p.base + "" == p.base;
    if !Bare(p) {
      SuffixNames(p, q, ecosystem);
    }
  }

  // ---------------------------------------------------------- numeric projections

  predicate TripleLess(x: (int, int, int), y: (int, int, int)) {
    x.0 < y.0 || (x.0 == y.0 && (x.1 < y.1 || (x.1 == y.1 && x.2 < y.2)))
  }

  predicate TripleInRange(t: (int, int, int)) {
    1 <= t.0 <= 9999 && 0 <= t.1 <= 99 && 0 <= t.2 <= 99
  }

  /** The build number an Apple triple stands for. */
  function FromApple(t: (int, int, int)): int {
    (t.0 - 1) * 10000 + t.1 * 100 + t.2 + 1
  }

  lemma AppleDigits(n: nat)
    ensures n == n / 10000 * 10000 + n / 100 % 100 * 100 + n % 100
  {
    assert n == n / 100 * 100 + n % 100;
    assert n / 100 == n / 100 / 100 * 100 + n / 100 % 100;
    assert n / 100 / 100 == n / 10000;
  }

  /** The Apple projection is a bijection from 1..99,990,000 onto the triples in range ... */
  lemma {:induction false} AppleBijection(build: int, t: (int, int, int))
    ensures 1 <= build <= 99_990_000 ==> TripleInRange(AppleTriple(build)) && FromApple(AppleTriple(build)) == build
    ensures TripleInRange(t) ==> 1 <= FromApple(t) <= 99_990_000 && AppleTriple(FromApple(t)) == t
  {
    if 1 <= build <= 99_990_000 {
      AppleDigits(build - 1);
    }
    if TripleInRange(t) {
      var n := FromApple(t) - 1;
      assert n == (t.0 - 1) * 10000 + (t.1 * 100 + t.2);
      assert n / 10000 == t.0 - 1;
      assert n / 100 == (t.0 - 1) * 100 + t.1;
    }
  }

  /** ... and keeps the order. */
  lemma {:induction false} AppleOrder(x: int, y: int)
    requires 1 <= x && 1 <= y
    ensures x < y <==> TripleLess(AppleTriple(x), AppleTriple(y))
  {
    AppleDigits(x - 1);
    AppleDigits(y - 1);
  }

  /** Distinct build numbers print as distinct Apple versions. */
  lemma AppleTextIsInjective(x: int, y: int)
    requires 1 <= x && 1 <= y && AppleText(x) == AppleText(y)
    ensures x == y
  {
    AppleTextParts(x);
    AppleTextParts(y);
    var (a, b, c) := AppleTriple(x);
    var (d, e, f) := AppleTriple(y);
    assert [Decimal(a), Decimal(b), Decimal(c)][0] == Decimal(d);
    assert [Decimal(a), Decimal(b), Decimal(c)][1] == Decimal(e);
    assert [Decimal(a), Decimal(b), Decimal(c)][2] == Decimal(f);
    NumberOfDecimal(a); NumberOfDecimal(b); NumberOfDecimal(c);
    NumberOfDecimal(d); NumberOfDecimal(e); NumberOfDecimal(f);
    AppleDigits(x - 1);
    AppleDigits(y - 1);
  }

  lemma AppleTextParts(x: int)
    requires 1 <= x
    ensures var (a, b, c) := AppleTriple(x); Split('.', AppleText(x)) == [Decimal(a), Decimal(b), Decimal(c)]
  {
    var (a, b, c) := AppleTriple(x);
    NumberOfDecimal(a); NumberOfDecimal(b); NumberOfDecimal(c);
    assert AppleText(x) == Decimal(a) + "." + (Decimal(b) + "." + Decimal(c));
    SplitAfterPart('.', Decimal(a), Decimal(b) + "." + Decimal(c));
    SplitAfterPart('.', Decimal(b), Decimal(c));
    SplitPart('.', Decimal(c));
  }

  /** Accepted nightly numbers order runs first and attempts second. */
  lemma {:induction false} NightlyOrder(r1: nat, a1: nat, r2: nat, a2: nat)
    requires NightlyNumber(r1, a1).Some? && NightlyNumber(r2, a2).Some?
    ensures NightlyNumber(r1, a1).value < NightlyNumber(r2, a2).value <==> r1 < r2 || (r1 == r2 && a1 < a2)
  {
    if r1 < r2 {
      assert (r1 + 1) * 1_000_000 <= r2 * 1_000_000;
    } else if r2 < r1 {
      assert (r2 + 1) * 1_000_000 <= r1 * 1_000_000;
    }
  }
}
