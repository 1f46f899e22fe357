/** MQTT topic names, topic filters and the gateway's topic ACL.

The executable part follows the gateway's topic module.  The yardstick is
`Matches`, the matching relation of section 4.7 of OASIS MQTT Version 5.0,
stated by quantifying over levels and not by any scan. */
module Topics {
  import opened Text

  const MAX_BYTES := 65535

  // ---------------------------------------------------------------- levels

  function CharBytes(c: char): nat {
    if c < '\U{80}' then 1 else if c < '\U{800}' then 2 else if c < '\U{10000}' then 3 else 4
  }

  /** Length of the UTF-8 encoding. */
  function Utf8Length(s: string): nat {
    if s == "" then 0 else CharBytes(s[0]) + Utf8Length(s[1..])
  }

  predicate HasPrefix(s: string, prefix: string) {
    prefix <= s
  }

  predicate IsWildcardChar(c: char) {
    c == '+' || c == '#'
  }

  predicate WildcardsStandAlone(levels: seq<string>) {
    forall i :: 0 <= i < |levels| ==>
      && ('+' in levels[i] ==> levels[i] == "+")
      && ('#' in levels[i] ==> levels[i] == "#" && i == |levels| - 1)
  }

  /** A nonempty name without NUL or wildcards, of any length. */
  predicate TopicName(topic: string) {
    topic != "" && '\0' !in topic && '+' !in topic && '#' !in topic
  }

  predicate ValidTopic(topic: string) {
    TopicName(topic) && Utf8Length(topic) <= MAX_BYTES
  }

  /** What configuration accepts as an ACL pattern; `$share/` is not excluded here. */
  predicate ValidPattern(filter: string) {
    && filter != "" && '\0' !in filter && Utf8Length(filter) <= MAX_BYTES
    && WildcardsStandAlone(Split('/', filter))
  }

  predicate ValidSubscription(filter: string) {
    ValidPattern(filter) && !HasPrefix(filter, "$share/")
  }

  // ------------------------------------------------- the matching relation

  predicate LevelMatches(filterLevel: string, topicLevel: string) {
    filterLevel == "+" || filterLevel == topicLevel
  }

  /** Section 4.7.1: `+` stands for one level, a final `#` for the parent and anything below it. */
  predicate MatchesLevels(f: seq<string>, t: seq<string>) {
    if f != [] && f[|f| - 1] == "#" then
      |f| - 1 <= |t| && forall i :: 0 <= i < |f| - 1 ==> LevelMatches(f[i], t[i])
    else
      |f| == |t| && forall i :: 0 <= i < |f| ==> LevelMatches(f[i], t[i])
  }

  /** Section 4.7.2: a leading wildcard never matches a topic that begins with `$`. */
  predicate Matches(filter: string, topic: string) {
    && MatchesLevels(Split('/', filter), Split('/', topic))
    && !(filter != "" && IsWildcardChar(filter[0]) && HasPrefix(topic, "$"))
  }

  // --------------------------------------------------- the gateway's scans

  predicate SystemMismatch(left: string, right: string)
    requires left != "" && right != ""
  {
    || (left[0] == '$' && IsWildcardChar(right[0]))
    || (right[0] == '$' && IsWildcardChar(left[0]))
  }

  /** The loop of `filter_contains`, from the first level not yet compared. */
  predicate ContainsLevels(a: seq<string>, r: seq<string>) {
    if a == [] then r == []
    else if a[0] == "#" then true
    else if r == [] || r[0] == "#" then false
    else if a[0] != "+" && a[0] != r[0] then false
    else ContainsLevels(a[1..], r[1..])
  }

  predicate FilterContains(allowed: string, requested: string)
    requires allowed != "" && requested != ""
  {
    !SystemMismatch(allowed, requested) && ContainsLevels(Split('/', allowed), Split('/', requested))
  }

  /** The zip of `filters_overlap`, then its test of the remaining levels. */
  predicate OverlapLevels(a: seq<string>, b: seq<string>) {
    if a == [] then b == [] || b == ["#"]
    else if b == [] then a == ["#"]
    else if a[0] == "#" || b[0] == "#" then true
    else if a[0] != "+" && b[0] != "+" && a[0] != b[0] then false
    else OverlapLevels(a[1..], b[1..])
  }

  predicate FiltersOverlap(left: string, right: string)
    requires left != "" && right != ""
  {
    !SystemMismatch(left, right) && OverlapLevels(Split('/', left), Split('/', right))
  }

  datatype Settings = Settings(allowed: seq<string>, blocked: seq<string>) {
    predicate Valid() {
      && (forall i :: 0 <= i < |allowed| ==> ValidPattern(allowed[i]))
      && (forall i :: 0 <= i < |blocked| ==> ValidPattern(blocked[i]))
    }
  }

  datatype Verdict = Granted | InvalidTopic | NotAllowed

  predicate RuleAllows(rule: string, topic: string, subscription: bool)
    requires rule != "" && topic != ""
  {
    if subscription then FilterContains(rule, topic) else Matches(rule, topic)
  }

  predicate RuleBlocks(rule: string, topic: string, subscription: bool)
    requires rule != "" && topic != ""
  {
    if subscription then FiltersOverlap(rule, topic) else Matches(rule, topic)
  }

  /** `authorize_topic`: HTTP 400 is `InvalidTopic`, HTTP 403 is `NotAllowed`. */
  function Authorize(topic: string, settings: Settings, subscription: bool): Verdict
    requires settings.Valid()
  {
    if !(if subscription then ValidSubscription(topic) else ValidTopic(topic)) then InvalidTopic
    else
      var allowed := exists i :: 0 <= i < |settings.allowed| && RuleAllows(settings.allowed[i], topic, subscription);
      var blocked := exists i :: 0 <= i < |settings.blocked| && RuleBlocks(settings.blocked[i], topic, subscription);
      if !allowed || blocked then NotAllowed else Granted
  }
}
