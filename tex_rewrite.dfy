/**
 * One rewrite pass of the TeX cleaner: a left-to-right, non-overlapping
 * scan that, at every position, tries the alternatives of a pattern in
 * order and replaces the first one that matches. This is the behaviour
 * of Python's `re.sub` for the specific patterns the cleaner uses, and of
 * `str.replace` for a single literal pattern.
 *
 * Only the pattern shapes that occur in the cleaner are supported:
 *  - a literal text (`re.escape`d alternatives, `str.replace` arguments);
 *  - an opening literal, a non-empty run of one character class, and a
 *    closing literal (`{([A-Z]+)}`, `\\hspace{[^}]+}` and the like).
 */
module TexRewrite {
  import opened Wrappers

  /** The character classes that occur inside the cleaner's patterns. */
  datatype CharClass =
    | UpperLetter    // [A-Z]
    | GlossArgChar   // [a-z0-9.:-]
    | NotCloseBrace  // [^}]

  predicate InClass(cls: CharClass, c: char) {
    match cls
    case UpperLetter => 'A' <= c <= 'Z'
    case GlossArgChar => ('a' <= c <= 'z') || ('0' <= c <= '9') || c == '.' || c == ':' || c == '-'
    case NotCloseBrace => c != '}'
  }

  /** What a group pattern puts in place of its match. */
  datatype GroupOut =
    | KeepGroup   // the captured run
    | UpperGroup  // the captured run, upper-cased
    | DropGroup   // nothing

  /** One alternative of a pass. */
  datatype Rule =
    | Lit(pat: string, rep: string)
    | Group(open: string, cls: CharClass, close: string, out: GroupOut)

  /** A match: how many characters it consumes and what it emits. */
  datatype Hit = Hit(len: nat, text: string)

  function UpperChar(c: char): char {
    if 'a' <= c <= 'z' then (c as int - 32) as char else c
  }

  function LowerChar(c: char): char {
    if 'A' <= c <= 'Z' then (c as int + 32) as char else c
  }

  /** ASCII upper-casing, character by character. */
  function Upper(s: string): string {
    seq(|s|, i requires 0 <= i < |s| => UpperChar(s[i]))
  }

  /** ASCII lower-casing, character by character. */
  function Lower(s: string): string {
    seq(|s|, i requires 0 <= i < |s| => LowerChar(s[i]))
  }

  predicate StartsWith(s: string, p: string) {
    p <= s
  }

  /** The literal text a rule's match must begin with. */
  function Key(r: Rule): string {
    match r
    case Lit(pat, _) => pat
    case Group(open, _, _, _) => open
  }

  /** The length of the longest prefix of `s` made of `cls` characters. */
  function ClassRun(cls: CharClass, s: string): (n: nat)
    ensures n <= |s|
    ensures forall i :: 0 <= i < n ==> InClass(cls, s[i])
    ensures n < |s| ==> !InClass(cls, s[n])
  {
    if s != [] && InClass(cls, s[0]) then 1 + ClassRun(cls, s[1..]) else 0
  }

  function GroupText(out: GroupOut, captured: string): string {
    match out
    case KeepGroup => captured
    case UpperGroup => Upper(captured)
    case DropGroup => ""
  }

  /** Does rule `r` match at the start of `s`, and with what result? */
  function MatchRule(r: Rule, s: string): (m: Option<Hit>)
    ensures m.Some? ==> 0 < m.value.len <= |s| && 0 < |Key(r)| && StartsWith(s, Key(r))
  {
    match r
    case Lit(pat, rep) =>
      if 0 < |pat| && StartsWith(s, pat) then Some(Hit(|pat|, rep)) else None
    case Group(open, cls, close, out) =>
      if 0 < |open| && StartsWith(s, open) then
        var n := ClassRun(cls, s[|open|..]);
        if 0 < n && StartsWith(s[|open| + n..], close) then
          Some(Hit(|open| + n + |close|, GroupText(out, s[|open|..|open| + n])))
        else None
      else None
  }

  /** No alternative of `rules` matches at the start of `s`. */
  predicate Inactive(rules: seq<Rule>, s: string) {
    forall j :: 0 <= j < |rules| ==> MatchRule(rules[j], s) == None
  }

  /** The alternatives are tried in order; the first that matches wins. */
  function FirstMatch(rules: seq<Rule>, s: string): (m: Option<Hit>)
    ensures m.Some? ==> 0 < m.value.len <= |s|
    ensures m == None <==> Inactive(rules, s)
    ensures m.Some? ==> exists j :: 0 <= j < |rules| && MatchRule(rules[j], s) == m &&
                                    forall k :: 0 <= k < j ==> MatchRule(rules[k], s) == None
  {
    if rules == [] then None
    else match MatchRule(rules[0], s)
      case Some(h) => Some(h)
      case None =>
        var m := FirstMatch(rules[1..], s);
        FirstMatchShift(rules, s, m);
        m
  }

  /** Trying a first alternative that misses changes nothing about which one wins. */
  lemma FirstMatchShift(rules: seq<Rule>, s: string, m: Option<Hit>)
    requires 0 < |rules| && MatchRule(rules[0], s) == None
    requires m == None <==> Inactive(rules[1..], s)
    requires m.Some? ==> exists j :: 0 <= j < |rules[1..]| && MatchRule(rules[1..][j], s) == m &&
                                     forall k :: 0 <= k < j ==> MatchRule(rules[1..][k], s) == None
    ensures m == None <==> Inactive(rules, s)
    ensures m.Some? ==> exists j :: 0 <= j < |rules| && MatchRule(rules[j], s) == m &&
                                    forall k :: 0 <= k < j ==> MatchRule(rules[k], s) == None
  {
    if m.Some? {
      var j :| 0 <= j < |rules[1..]| && MatchRule(rules[1..][j], s) == m &&
               forall k :: 0 <= k < j ==> MatchRule(rules[1..][k], s) == None;
      ShiftHit(rules, s, m, j);
    } else {
      ShiftMiss(rules, s);
    }
  }

  lemma ShiftHit(rules: seq<Rule>, s: string, m: Option<Hit>, j: nat)
    requires 0 < |rules| && MatchRule(rules[0], s) == None && m.Some?
    requires j < |rules[1..]| && MatchRule(rules[1..][j], s) == m
    requires forall k :: 0 <= k < j ==> MatchRule(rules[1..][k], s) == None
    ensures j + 1 < |rules| && MatchRule(rules[j + 1], s) == m
    ensures forall k :: 0 <= k < j + 1 ==> MatchRule(rules[k], s) == None
  {
    assert rules[1..][j] == rules[j + 1];
    forall k | 0 <= k < j + 1 ensures MatchRule(rules[k], s) == None {
      if 0 < k {
        assert rules[1..][k - 1] == rules[k];
      }
    }
  }

  lemma ShiftMiss(rules: seq<Rule>, s: string)
    requires 0 < |rules| && MatchRule(rules[0], s) == None && Inactive(rules[1..], s)
    ensures Inactive(rules, s)
  {
    forall k | 0 <= k < |rules| ensures MatchRule(rules[k], s) == None {
      if 0 < k {
        assert rules[1..][k - 1] == rules[k];
      }
    }
  }

  /** One pass: scan left to right, replacing non-overlapping matches. */
  function Rewrite(rules: seq<Rule>, s: string): string
    decreases |s|
  {
    if s == [] then []
    else match FirstMatch(rules, s)
      case Some(h) => h.text + Rewrite(rules, s[h.len..])
      case None => [s[0]] + Rewrite(rules, s[1..])
  }

  /** A pass that matches nowhere in `s` returns `s`. */
  lemma {:induction false} RewriteUnchanged(rules: seq<Rule>, s: string)
    requires forall i :: 0 <= i < |s| ==> Inactive(rules, s[i..])
    ensures Rewrite(rules, s) == s
  {
    if s != [] {
      assert Inactive(rules, s[0..]);
      assert s[0..] == s;
      forall i | 0 <= i < |s[1..]| ensures Inactive(rules, s[1..][i..]) {
        assert s[1..][i..] == s[i + 1..];
        assert Inactive(rules, s[i + 1..]);
      }
      RewriteUnchanged(rules, s[1..]);
    }
  }

  /** The first alternative that matches is the one whose match is taken. */
  lemma {:induction false} FirstMatchAt(rules: seq<Rule>, s: string, j: nat, h: Hit)
    requires j < |rules| && MatchRule(rules[j], s) == Some(h)
    requires forall k :: 0 <= k < j ==> MatchRule(rules[k], s) == None
    ensures FirstMatch(rules, s) == Some(h)
  {
    if j > 0 {
      assert forall k :: 1 <= k < |rules| ==> rules[1..][k - 1] == rules[k];
      FirstMatchAt(rules[1..], s, j - 1, h);
    }
  }

  /** A match that spans all of `s` makes the pass return its text. */
  lemma RewriteWhole(rules: seq<Rule>, s: string, h: Hit)
    requires FirstMatch(rules, s) == Some(h) && h.len == |s|
    ensures Rewrite(rules, s) == h.text
  {
    assert s[h.len..] == [];
  }

  /** A rule only matches where the first character of its key stands. */
  lemma MatchHead(r: Rule, s: string)
    requires MatchRule(r, s).Some?
    ensures 0 < |s| && 0 < |Key(r)| && s[0] == Key(r)[0]
  {
  }

  /** No rule can fire in a text that lacks the first character of every key. */
  lemma RewriteNoHeads(rules: seq<Rule>, s: string)
    requires forall j :: 0 <= j < |rules| ==> 0 < |Key(rules[j])| && Key(rules[j])[0] !in s
    ensures Rewrite(rules, s) == s
  {
    forall i | 0 <= i < |s| ensures Inactive(rules, s[i..]) {
      assert s[i] in s;
      forall j | 0 <= j < |rules| ensures MatchRule(rules[j], s[i..]) == None {
        if MatchRule(rules[j], s[i..]).Some? {
          MatchHead(rules[j], s[i..]);
        }
      }
    }
    RewriteUnchanged(rules, s);
  }

  /** `ClassRun` is exactly `k` when `k` class characters are followed by a non-class one or the end. */
  lemma {:induction false} ClassRunExact(cls: CharClass, s: string, k: nat)
    requires k <= |s|
    requires forall i :: 0 <= i < k ==> InClass(cls, s[i])
    requires k < |s| ==> !InClass(cls, s[k])
    ensures ClassRun(cls, s) == k
  {
    if k > 0 {
      ClassRunExact(cls, s[1..], k - 1);
    }
  }

  /**
   * The greedy reading of a group pattern is its only reading: when the
   * closing literal cannot start with a class character, every way of
   * matching `open`, a non-empty class run and `close` (what a
   * backtracking regex engine could choose) is the match `MatchRule` returns.
   */
  lemma GroupMatchIsOnlyMatch(open: string, cls: CharClass, close: string, out: GroupOut, s: string, k: nat)
    requires 0 < |open| && 0 < |close| && !InClass(cls, close[0])
    requires StartsWith(s, open) && 0 < k && |open| + k <= |s|
    requires forall i :: |open| <= i < |open| + k ==> InClass(cls, s[i])
    requires StartsWith(s[|open| + k..], close)
    ensures MatchRule(Group(open, cls, close, out), s)
         == Some(Hit(|open| + k + |close|, GroupText(out, s[|open|..|open| + k])))
  {
    var t := s[|open|..];
    assert s[|open| + k] == close[0];
    ClassRunExact(cls, t, k);
  }

  /** A group rule that matches the whole of `s` makes its one-rule pass return the group's text. */
  lemma GroupPassWhole(open: string, cls: CharClass, close: string, out: GroupOut, s: string, k: nat)
    requires 0 < |open| && 0 < |close| && !InClass(cls, close[0])
    requires StartsWith(s, open) && 0 < k && |s| == |open| + k + |close|
    requires forall i :: |open| <= i < |open| + k ==> InClass(cls, s[i])
    requires StartsWith(s[|open| + k..], close)
    ensures Rewrite([Group(open, cls, close, out)], s) == GroupText(out, s[|open|..|open| + k])
  {
    GroupMatchIsOnlyMatch(open, cls, close, out, s, k);
    OneRuleWhole(Group(open, cls, close, out), s, Hit(|open| + k + |close|, GroupText(out, s[|open|..|open| + k])));
  }

  /** A one-rule pass whose rule matches the whole of `s` returns the match's text. */
  lemma OneRuleWhole(r: Rule, s: string, h: Hit)
    requires MatchRule(r, s) == Some(h) && h.len == |s|
    ensures Rewrite([r], s) == h.text
  {
    assert [r][0] == r;
    FirstMatchAt([r], s, 0, h);
    RewriteWhole([r], s, h);
  }

  /** Replacing every `a` by the single character `b` is a character-wise map. */
  lemma {:induction false} ReplaceCharIsMap(s: string, a: char, b: char)
    ensures Rewrite([Lit([a], [b])], s) == seq(|s|, i requires 0 <= i < |s| => if s[i] == a then b else s[i])
  {
    var rules := [Lit([a], [b])];
    if s != [] {
      ReplaceCharIsMap(s[1..], a, b);
      if s[0] == a {
        assert MatchRule(rules[0], s) == Some(Hit(1, [b]));
      } else {
        assert MatchRule(rules[0], s) == None;
        assert Inactive(rules, s);
      }
    }
  }

  /** Passes `k` onwards, each applied to the output of the one before. */
  function ApplyFrom(passes: seq<seq<Rule>>, k: nat, s: string): string
    requires k <= |passes|
    decreases |passes| - k
  {
    if k == |passes| then s else ApplyFrom(passes, k + 1, Rewrite(passes[k], s))
  }

  /** Passes `k` onwards leave alone a text none of them changes. */
  lemma {:induction false} ApplyFromIdle(passes: seq<seq<Rule>>, k: nat, x: string)
    requires k <= |passes|
    requires forall j :: k <= j < |passes| ==> Rewrite(passes[j], x) == x
    ensures ApplyFrom(passes, k, x) == x
    decreases |passes| - k
  {
    if k < |passes| {
      var y := Rewrite(passes[k], x);
      assert y == x;
      ApplyFromIdle(passes, k + 1, x);
      assert ApplyFrom(passes, k, x) == ApplyFrom(passes, k + 1, y);
    }
  }

  /**
   * When passes `i` to `k - 1` change nothing, pass `k` turns `s` into `x`
   * and no later pass changes `x`, passes `i` onwards yield `x`.
   */
  lemma {:induction false} OnlyPassFires(passes: seq<seq<Rule>>, i: nat, k: nat, s: string, x: string)
    requires i <= k < |passes|
    requires forall j :: i <= j < k ==> Rewrite(passes[j], s) == s
    requires Rewrite(passes[k], s) == x
    requires forall j :: k < j < |passes| ==> Rewrite(passes[j], x) == x
    ensures ApplyFrom(passes, i, s) == x
    decreases k - i
  {
    if i < k {
      var y := Rewrite(passes[i], s);
      assert y == s;
      assert ApplyFrom(passes, i, s) == ApplyFrom(passes, i + 1, y);
      OnlyPassFires(passes, i + 1, k, s, x);
    } else {
      ApplyFromIdle(passes, k + 1, x);
      assert ApplyFrom(passes, k, s) == ApplyFrom(passes, k + 1, x);
    }
  }
}
