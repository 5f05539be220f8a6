/** Memory configuration and the selection of a capacity for one member. */
module MemoryRules {
  import opened Wrappers
  import opened Introspection

  datatype Rule = Rule(rule: CString, size: nat)

  /** A capacity of 0 in a caller's configuration asks for the default. */
  datatype Conf = Conf(maxString: nat, maxRos2Sequence: nat, maxBasicSequence: nat, rules: seq<Rule>)

  const DEFAULT_CONF := Conf(20, 5, 5, [])

  /** Each capacity on its own: the caller's where it is not 0, whatever the others are. */
  function Configured(conf: Conf): (r: Conf)
    ensures 0 < conf.maxString ==> r.maxString == conf.maxString
    ensures 0 < conf.maxRos2Sequence ==> r.maxRos2Sequence == conf.maxRos2Sequence
    ensures 0 < conf.maxBasicSequence ==> r.maxBasicSequence == conf.maxBasicSequence
    ensures 0 < r.maxString && 0 < r.maxRos2Sequence && 0 < r.maxBasicSequence
    ensures r.rules == conf.rules
  {
    Conf(
      if conf.maxString == 0 then DEFAULT_CONF.maxString else conf.maxString,
      if conf.maxRos2Sequence == 0 then DEFAULT_CONF.maxRos2Sequence else conf.maxRos2Sequence,
      if conf.maxBasicSequence == 0 then DEFAULT_CONF.maxBasicSequence else conf.maxBasicSequence,
      conf.rules)
  }

  function DefaultCapacity(conf: Conf, kind: Kind): nat {
    match kind
    case Message(_) => conf.maxRos2Sequence
    case StringKind => conf.maxString
    case Basic(_) => conf.maxBasicSequence
  }

  /** What the rule is meant to say: it names the member, with or without the trailing dot. */
  predicate Names(rule: string, dotted: string) {
    rule == dotted || rule + "." == dotted
  }

  /** The size of the first rule that names the member, else the default. */
  function FirstMatch(rules: seq<Rule>, dotted: string, default: nat): nat {
    if rules == [] then default
    else if Names(rules[0].rule, dotted) then rules[0].size
    else FirstMatch(rules[1..], dotted, default)
  }

  function Capacity(conf: Conf, kind: Kind, dotted: string): nat {
    FirstMatch(conf.rules, dotted, DefaultCapacity(conf, kind))
  }

  /** `memcmp(a, b, n) == 0`, for a `memcmp` that stops at the first difference.
      `None` when an object ends before the comparison is decided. */
  function MemEqual(a: seq<char>, b: seq<char>, n: nat): Option<bool> {
    if n == 0 then Some(true)
    else if |a| == 0 || |b| == 0 then None
    else if a[0] != b[0] then Some(false)
    else MemEqual(a[1..], b[1..], n - 1)
  }

  /** Two terminated buffers compared over a length that `a` has: the comparison
      stays inside both, and says whether `b` starts with those characters. */
  lemma {:induction false} MemEqualTerminated(a: CString, x: seq<char>, b: CString, y: seq<char>, n: nat)
    requires n <= |a|
    ensures MemEqual(a + ['\0'] + x, b + ['\0'] + y, n) == Some(n <= |b| && a[..n] == b[..n])
    ensures MemEqual(b + ['\0'] + y, a + ['\0'] + x, n) == Some(n <= |b| && a[..n] == b[..n])
    decreases n
  {
    var s, t := a + ['\0'] + x, b + ['\0'] + y;
    if n > 0 {
      assert s[0] == a[0] && s[1..] == a[1..] + ['\0'] + x;
      if b == "" {
        assert t[0] == '\0';
      } else if a[0] == b[0] {
        assert t[0] == b[0] && t[1..] == b[1..] + ['\0'] + y;
        MemEqualTerminated(a[1..], x, b[1..], y, n - 1);
        if n <= |b| {
          assert a[..n] == [a[0]] + a[1..][..n - 1];
          assert b[..n] == [b[0]] + b[1..][..n - 1];
        }
      } else {
        assert t[0] == b[0];
        assert n <= |b| ==> a[..n][0] != b[..n][0];
      }
    }
  }

  /** The two comparisons made for a rule, on the rule's own buffer and on the
      path buffer holding `dotted`, its terminator and whatever follows. */
  function CodeMatches(rule: seq<char>, ruleLen: nat, path: seq<char>, pathLen: nat): Option<bool>
    requires 0 < pathLen
  {
    match MemEqual(rule, path, ruleLen)
    case None => None
    case Some(false) => Some(false)
    case Some(true) => MemEqual(rule, path, pathLen - 1)
  }

  /** The two comparisons together hold exactly when the rule names the member,
      and neither gets to the end of a buffer undecided. */
  lemma RuleTestExact(rule: CString, dotted: CString, junk: seq<char>)
    requires 0 < |dotted| && dotted[|dotted| - 1] == '.'
    ensures CodeMatches(rule + ['\0'], |rule|, dotted + ['\0'] + junk, |dotted|) == Some(Names(rule, dotted))
  {
    var n := |dotted| - 1;
    assert rule + ['\0'] + [] == rule + ['\0'];
    MemEqualTerminated(rule, [], dotted, junk, |rule|);
    MemEqualTerminated(dotted, junk, rule, [], n);
    assert dotted == dotted[..n] + ".";
    if |rule| <= |dotted| && rule == dotted[..|rule|] {
      if n <= |rule| && dotted[..n] == rule[..n] {
        assert |rule| == n || |rule| == n + 1;
      }
    }
    if rule + "." == dotted {
      assert rule == dotted[..n];
    }
  }

  /** First-match selection, position by position. */
  lemma {:induction false} FirstMatchExact(rules: seq<Rule>, dotted: string, default: nat)
    ensures (exists k | 0 <= k < |rules| ::
               && Names(rules[k].rule, dotted)
               && FirstMatch(rules, dotted, default) == rules[k].size
               && forall j | 0 <= j < k :: !Names(rules[j].rule, dotted))
            || (FirstMatch(rules, dotted, default) == default
                && forall j | 0 <= j < |rules| :: !Names(rules[j].rule, dotted))
  {
    if rules == [] {
    } else if Names(rules[0].rule, dotted) {
      assert FirstMatch(rules, dotted, default) == rules[0].size;
    } else {
      FirstMatchExact(rules[1..], dotted, default);
      if k :| 0 <= k < |rules[1..]| && Names(rules[1..][k].rule, dotted)
              && FirstMatch(rules[1..], dotted, default) == rules[1..][k].size
              && forall j | 0 <= j < k :: !Names(rules[1..][j].rule, dotted) {
        assert Names(rules[k + 1].rule, dotted);
        forall j | 0 <= j < k + 1 ensures !Names(rules[j].rule, dotted) {
          if j > 0 { assert rules[j] == rules[1..][j - 1]; }
        }
      } else {
        forall j | 0 <= j < |rules| ensures !Names(rules[j].rule, dotted) {
          if j > 0 { assert rules[j] == rules[1..][j - 1]; }
        }
      }
    }
  }

  /** Rules already tried without success do not matter to the selection. */
  lemma {:induction false} SkipUnmatched(rules: seq<Rule>, i: nat, dotted: string, default: nat)
    requires i <= |rules|
    requires forall j | 0 <= j < i :: !Names(rules[j].rule, dotted)
    ensures FirstMatch(rules, dotted, default) == FirstMatch(rules[i..], dotted, default)
    decreases i
  {
    if i == 0 {
      assert rules[0..] == rules;
    } else {
      SkipUnmatched(rules, i - 1, dotted, default);
      assert rules[i - 1..][1..] == rules[i..];
    }
  }

  /** The rule loop over the path buffer `path[..len]` (terminated at `len`). */
  method SelectCapacity(conf: Conf, kind: Kind, path: array<char>, len: nat) returns (capacity: nat)
    requires 0 < len < path.Length && path[len] == '\0' && path[len - 1] == '.'
    requires '\0' !in path[..len]
    ensures capacity == Capacity(conf, kind, path[..len])
  {
    ghost var dotted: CString := path[..len];
    ghost var junk := path[len + 1..];
    assert path[..] == dotted + ['\0'] + junk;
    capacity := DefaultCapacity(conf, kind);
    var i := 0;
    while i < |conf.rules|
      invariant 0 <= i <= |conf.rules|
      invariant capacity == DefaultCapacity(conf, kind)
      invariant forall j | 0 <= j < i :: !Names(conf.rules[j].rule, dotted)
    {
      var rule := conf.rules[i].rule;
      RuleTestExact(rule, dotted, junk);
      if CodeMatches(rule + ['\0'], |rule|, path[..], len) == Some(true) {
        SkipUnmatched(conf.rules, i, dotted, capacity);
        return conf.rules[i].size;
      }
      i := i + 1;
    }
    SkipUnmatched(conf.rules, |conf.rules|, dotted, capacity);
  }
}
