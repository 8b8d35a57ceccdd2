/**
 * The token cleaner of the IMTVault dataset builder: an ordered cascade of
 * rewrite passes that turns one TeX-encoded word or gloss into plain text,
 * a frequency counter of results that still hold TeX, and the filter that
 * drops placeholder tokens before cleaning.
 */
module TexClean {
  import opened TexRewrite

  /**
   * What the cleaner takes from its environment: the glossing
   * abbreviations (the Leipzig Glossing Rules keys plus the dataset's own
   * additions, in list order) and the marker for a non-overt element.
   */
  datatype Config = Config(abbrs: seq<string>, nonOvert: string)

  // ---------------------------------------------------------------------
  // Character-level vocabulary

  /** A character of an abbreviation key: an upper-case letter, a digit, or the `-` of a prefix key such as `N-`. */
  predicate AbbrChar(c: char) {
    ('A' <= c <= 'Z') || ('0' <= c <= '9') || c == '-'
  }

  /** An abbreviation key as the glossing rules write them: upper-case letters, digits and hyphens. */
  predicate WellFormedAbbr(a: string) {
    0 < |a| && forall i :: 0 <= i < |a| ==> AbbrChar(a[i])
  }

  /**
   * What the lemmas about the abbreviation passes assume of the
   * environment: at least one key (the builder always adds eight), every
   * key well formed, and a marker without markup.
   */
  predicate WellFormedConfig(cfg: Config) {
    0 < |cfg.abbrs|
    && (forall j :: 0 <= j < |cfg.abbrs| ==> WellFormedAbbr(cfg.abbrs[j]))
    && MarkupFree(cfg.nonOvert)
  }

  /** A character of a macro name the abbreviation passes can match: a letter, a digit or a hyphen. */
  predicate NameChar(c: char) {
    ('A' <= c <= 'Z') || ('a' <= c <= 'z') || ('0' <= c <= '9') || c == '-'
  }

  predicate NameText(s: string) {
    forall i :: 0 <= i < |s| ==> NameChar(s[i])
  }

  /** No character any pass can start a match on. */
  predicate MarkupFree(s: string) {
    '{' !in s && '\\' !in s && '$' !in s
  }

  /** Nowhere in `s` does `a` stand directly before `b`. */
  predicate NoPair(s: string, a: char, b: char) {
    forall i :: 0 <= i < |s| - 1 ==> !(s[i] == a && s[i + 1] == b)
  }

  /** Python's `str.capitalize` on ASCII text. */
  function Capitalize(s: string): string {
    if s == [] then [] else [UpperChar(s[0])] + Lower(s[1..])
  }

  function Lowered(names: seq<string>): seq<string> {
    seq(|names|, i requires 0 <= i < |names| => Lower(names[i]))
  }

  function Capitalized(names: seq<string>): seq<string> {
    seq(|names|, i requires 0 <= i < |names| => Capitalize(names[i]))
  }

  // ---------------------------------------------------------------------
  // The passes, in source order

  /** `{\name}` for each name, replaced by the name, upper-cased when `upper`. */
  function BraceTable(names: seq<string>, upper: bool): seq<Rule> {
    seq(|names|, i requires 0 <= i < |names| =>
      Lit("{\\" + names[i] + "}", if upper then Upper(names[i]) else names[i]))
  }

  /** `\name{}` for each name, replaced by the upper-cased name. */
  function ArgTable(names: seq<string>): seq<Rule> {
    seq(|names|, i requires 0 <= i < |names| => Lit("\\" + names[i] + "{}", Upper(names[i])))
  }

  function UpperAbbrs(cfg: Config): seq<Rule> { BraceTable(cfg.abbrs, false) }
  function LowerAbbrs(cfg: Config): seq<Rule> { BraceTable(Lowered(cfg.abbrs), true) }
  function ArgAbbrs(cfg: Config): seq<Rule> { ArgTable(Lowered(cfg.abbrs)) }
  function CapAbbrs(cfg: Config): seq<Rule> { BraceTable(Capitalized(cfg.abbrs), true) }

  const UpperRun: seq<Rule> := [Group("{", UpperLetter, "}", KeepGroup)]
  const GlossArg: seq<Rule> := [Group("\\gloss{", GlossArgChar, "}", UpperGroup)]
  const GlossSuffix: seq<Rule> := [Group("\\gloss", UpperLetter, "{}", KeepGroup)]
  function EmptySet(cfg: Config): seq<Rule> { [Lit("$\\emptyset$", cfg.nonOvert)] }
  const HSpace: seq<Rule> := [Group("\\hspace{", NotCloseBrace, "}", DropGroup)]
  const Emphasis: seq<Rule> :=
    [Group("\\emph{", NotCloseBrace, "}", KeepGroup),
     Group("\\stem{", NotCloseBrace, "}", KeepGroup),
     Group("\\bf{", NotCloseBrace, "}", KeepGroup)]
  function InlineEmpty(cfg: Config): seq<Rule> { [Lit("\\(ø\\)", cfg.nonOvert)] }
  const GscAcc: seq<Rule> := [Lit("\\gscACC", "ACC")]
  const Redp: seq<Rule> := [Lit("\\redp{}", "~")]

  /** The thirteen passes of `clean`, in the order the source applies them. */
  function Cascade(cfg: Config): seq<seq<Rule>> {
    [UpperAbbrs(cfg), LowerAbbrs(cfg), ArgAbbrs(cfg), CapAbbrs(cfg),
     UpperRun, GlossArg, GlossSuffix, EmptySet(cfg), HSpace, Emphasis,
     InlineEmpty(cfg), GscAcc, Redp]
  }

  /** The passes of the cascade one by one, for proofs that follow a text through them. */
  lemma CascadeIs(cfg: Config)
    ensures |Cascade(cfg)| == 13
    ensures Cascade(cfg)[0] == UpperAbbrs(cfg) && Cascade(cfg)[1] == LowerAbbrs(cfg)
    ensures Cascade(cfg)[2] == ArgAbbrs(cfg) && Cascade(cfg)[3] == CapAbbrs(cfg)
    ensures Cascade(cfg)[4] == UpperRun && Cascade(cfg)[5] == GlossArg
    ensures Cascade(cfg)[6] == GlossSuffix && Cascade(cfg)[7] == EmptySet(cfg)
    ensures Cascade(cfg)[8] == HSpace && Cascade(cfg)[9] == Emphasis
    ensures Cascade(cfg)[10] == InlineEmpty(cfg) && Cascade(cfg)[11] == GscAcc
    ensures Cascade(cfg)[12] == Redp
  {
  }

  /** The rewrite cascade of `clean`, without its counter update. */
  function Cleaned(cfg: Config, tex: string): string {
    ApplyFrom(Cascade(cfg), 0, tex)
  }

  // ---------------------------------------------------------------------
  // The frequency counter

  /** A counter entry; a key never counted reads as zero. */
  function Count(c: map<string, nat>, k: string): nat {
    if k in c then c[k] else 0
  }

  /**
   * `clean`: the rewritten token, and the counter with one more
   * occurrence of it when it still contains a backslash.
   */
  function Clean(cfg: Config, tex: string, count: map<string, nat>): (r: (string, map<string, nat>))
    ensures r.0 == Cleaned(cfg, tex)
    ensures Count(r.1, r.0) == Count(count, r.0) + (if '\\' in r.0 then 1 else 0)
    ensures forall k :: k != r.0 ==> Count(r.1, k) == Count(count, k)
    ensures r.1.Keys == if '\\' in r.0 then count.Keys + {r.0} else count.Keys
  {
    var t := Cleaned(cfg, tex);
    (t, Bump(count, t))
  }

  /** One more occurrence of `t`, when it still contains a backslash. */
  function Bump(count: map<string, nat>, t: string): map<string, nat> {
    if '\\' in t then count[t := Count(count, t) + 1] else count
  }

  /** The counter after cleaning `ts` in order, starting from `count`. */
  function Tally(count: map<string, nat>, ts: seq<string>): map<string, nat>
    decreases ts
  {
    if ts == [] then count
    else
      var t := ts[0];
      Tally(Bump(count, t), ts[1..])
  }

  function Occurrences(ts: seq<string>, k: string): nat {
    if ts == [] then 0 else (if ts[0] == k then 1 else 0) + Occurrences(ts[1..], k)
  }

  /** The counter holds, for each string with a backslash, how often it was produced. */
  lemma {:induction false} TallyCounts(count: map<string, nat>, ts: seq<string>, k: string)
    ensures Count(Tally(count, ts), k) == Count(count, k) + (if '\\' in k then Occurrences(ts, k) else 0)
    decreases ts
  {
    if ts != [] {
      var t := ts[0];
      var c1 := Bump(count, t);
      TallyCounts(c1, ts[1..], k);
    }
  }

  // ---------------------------------------------------------------------
  // `filtered`: drop placeholders, escape `\t`, clean

  predicate Placeholder(k: string) {
    k == "{}" || k == "" || k == "--"
  }

  /** The tokens `filtered` keeps, in their original order. */
  function Kept(l: seq<string>): seq<string> {
    if l == [] then [] else (if Placeholder(l[0]) then [] else [l[0]]) + Kept(l[1..])
  }

  /** Keeping distributes over concatenation, so the kept tokens stay in order. */
  lemma {:induction false} KeptAppend(a: seq<string>, b: seq<string>)
    ensures Kept(a + b) == Kept(a) + Kept(b)
  {
    if a != [] {
      assert (a + b)[0] == a[0];
      assert (a + b)[1..] == a[1..] + b;
      KeptAppend(a[1..], b);
    } else {
      assert a + b == b;
    }
  }

  /** Exactly the non-placeholder tokens are kept. */
  lemma {:induction false} KeptMembers(l: seq<string>, x: string)
    ensures x in Kept(l) <==> x in l && !Placeholder(x)
  {
    if l != [] {
      KeptMembers(l[1..], x);
      assert l == [l[0]] + l[1..];
    }
  }

  /** `k.replace('\\t', '__t')`. */
  function TabEscape(k: string): string {
    Rewrite([Lit("\\t", "__t")], k)
  }

  /** `filtered`: the cleaned kept tokens, and the counter after cleaning them in order. */
  function Filtered(cfg: Config, l: seq<string>, count: map<string, nat>): (r: (seq<string>, map<string, nat>))
    ensures |r.0| == |Kept(l)|
    ensures r.1 == Tally(count, r.0)
  {
    if l == [] then ([], count)
    else if Placeholder(l[0]) then Filtered(cfg, l[1..], count)
    else
      var c := Clean(cfg, TabEscape(l[0]), count);
      var rest := Filtered(cfg, l[1..], c.1);
      KeptCons(l);
      TallyCons(count, c.0, c.1, rest.0);
      ([c.0] + rest.0, rest.1)
  }

  lemma KeptCons(l: seq<string>)
    requires l != [] && !Placeholder(l[0])
    ensures Kept(l) == [l[0]] + Kept(l[1..])
  {
  }

  lemma KeptSkip(l: seq<string>)
    requires l != [] && Placeholder(l[0])
    ensures Kept(l) == Kept(l[1..])
  {
    assert Kept(l) == [] + Kept(l[1..]);
  }

  /** Counting `t` and then `rest` is counting `[t] + rest`. */
  lemma TallyCons(count: map<string, nat>, t: string, c1: map<string, nat>, rest: seq<string>)
    requires c1 == Bump(count, t)
    ensures Tally(count, [t] + rest) == Tally(c1, rest)
  {
    assert ([t] + rest)[1..] == rest;
  }

  /** Each token `filtered` returns is the cleaned, tab-escaped kept token at the same position. */
  lemma {:induction false} FilteredCleansKept(cfg: Config, l: seq<string>, count: map<string, nat>)
    ensures var r := Filtered(cfg, l, count).0;
            forall i :: 0 <= i < |r| ==> r[i] == Cleaned(cfg, TabEscape(Kept(l)[i]))
  {
    if l == [] {
      assert Filtered(cfg, l, count).0 == [];
    } else {
      if Placeholder(l[0]) {
        FilteredCleansKept(cfg, l[1..], count);
        assert Filtered(cfg, l, count) == Filtered(cfg, l[1..], count);
        KeptSkip(l);
      } else {
        var c := Clean(cfg, TabEscape(l[0]), count);
        FilteredCleansKept(cfg, l[1..], c.1);
        var r := Filtered(cfg, l, count).0;
        var rest := Filtered(cfg, l[1..], c.1).0;
        assert r == [c.0] + rest;
        KeptCons(l);
        CleanedCons(cfg, r, c.0, rest, Kept(l), l[0], Kept(l[1..]));
      }
    }
  }

  /** Position by position cleaning extends to a list with one more token at its head. */
  lemma CleanedCons(cfg: Config, r: seq<string>, x: string, rest: seq<string>,
                    k: seq<string>, w: string, krest: seq<string>)
    requires r == [x] + rest && k == [w] + krest && |rest| == |krest|
    requires x == Cleaned(cfg, TabEscape(w))
    requires forall i :: 0 <= i < |rest| ==> rest[i] == Cleaned(cfg, TabEscape(krest[i]))
    ensures forall i :: 0 <= i < |r| ==> r[i] == Cleaned(cfg, TabEscape(k[i]))
  {
    forall i | 0 <= i < |r| ensures r[i] == Cleaned(cfg, TabEscape(k[i])) {
      if i > 0 {
        assert r[i] == rest[i - 1] && k[i] == krest[i - 1];
      }
    }
  }

  /** The cleaned tokens alone, for callers that do not need the counter. */
  function CleanedTokens(cfg: Config, l: seq<string>): seq<string> {
    Filtered(cfg, l, map[]).0
  }

  /** The tokens `filtered` returns do not depend on the counter it is given. */
  lemma FilteredTokensIgnoreCounter(cfg: Config, l: seq<string>, count: map<string, nat>)
    ensures Filtered(cfg, l, count).0 == CleanedTokens(cfg, l)
  {
    FilteredCleansKept(cfg, l, count);
    FilteredCleansKept(cfg, l, map[]);
  }
}
