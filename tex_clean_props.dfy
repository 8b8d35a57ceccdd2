/**
 * What the cleaning cascade does to the macro shapes it was written for:
 * each shape is rewritten by exactly one pass, every other pass leaves it
 * (or the result) alone.
 */
module TexCleanProps {
  import opened TexRewrite
  import opened TexClean
  import opened Wrappers

  // ---------------------------------------------------------------------
  // When a pass cannot fire

  /** A text that starts with `p` agrees with it at every index of `p`. */
  lemma PrefixAt(t: string, p: string, k: nat)
    requires k < |p|
    ensures StartsWith(t, p) ==> k < |t| && t[k] == p[k]
  {
  }

  /** Every rule of `rules` begins with the character `h`. */
  predicate HeadsAre(rules: seq<Rule>, h: char) {
    forall j :: 0 <= j < |rules| ==> 0 < |Key(rules[j])| && Key(rules[j])[0] == h
  }

  /** Every rule begins with one of the characters `MarkupFree` forbids. */
  predicate MarkupHeads(rules: seq<Rule>) {
    forall j :: 0 <= j < |rules| ==>
      0 < |Key(rules[j])| && (Key(rules[j])[0] == '{' || Key(rules[j])[0] == '\\' || Key(rules[j])[0] == '$')
  }

  lemma CascadeHeads(cfg: Config)
    ensures forall j :: 0 <= j < |Cascade(cfg)| ==> MarkupHeads(Cascade(cfg)[j])
  {
  }

  /** A pass whose rules all begin with `h` fires at most where `h` stands. */
  lemma IdleBut(rules: seq<Rule>, h: char, s: string, p: nat)
    requires HeadsAre(rules, h)
    requires forall i :: 0 <= i < |s| && i != p ==> s[i] != h
    requires p < |s| ==> Inactive(rules, s[p..])
    ensures Rewrite(rules, s) == s
  {
    forall i | 0 <= i < |s| ensures Inactive(rules, s[i..]) {
      if i != p {
        forall j | 0 <= j < |rules| ensures MatchRule(rules[j], s[i..]) == None {
          PrefixAt(s[i..], Key(rules[j]), 0);
        }
      }
    }
    RewriteUnchanged(rules, s);
  }

  /** Text without `{`, `\` and `$` passes through every pass unchanged. */
  lemma IdleOnMarkupFree(cfg: Config, x: string)
    requires MarkupFree(x)
    ensures forall j :: 0 <= j < |Cascade(cfg)| ==> Rewrite(Cascade(cfg)[j], x) == x
  {
    CascadeHeads(cfg);
    forall j | 0 <= j < |Cascade(cfg)| ensures Rewrite(Cascade(cfg)[j], x) == x {
      RewriteNoHeads(Cascade(cfg)[j], x);
    }
  }

  /** `clean` leaves text without TeX markup characters as it is. */
  lemma CleanedMarkupFree(cfg: Config, x: string)
    requires MarkupFree(x)
    ensures Cleaned(cfg, x) == x
  {
    IdleOnMarkupFree(cfg, x);
    ApplyFromIdle(Cascade(cfg), 0, x);
  }

  /** The cascade yields `x` when pass `k` is the only one that changes anything. */
  lemma CleanedVia(cfg: Config, s: string, k: nat, x: string)
    requires k < 13
    requires 0 < k ==> Rewrite(UpperAbbrs(cfg), s) == s
    requires 1 < k ==> Rewrite(LowerAbbrs(cfg), s) == s
    requires 2 < k ==> Rewrite(ArgAbbrs(cfg), s) == s
    requires 3 < k ==> Rewrite(CapAbbrs(cfg), s) == s
    requires 4 < k ==> Rewrite(UpperRun, s) == s
    requires 5 < k ==> Rewrite(GlossArg, s) == s
    requires 6 < k ==> Rewrite(GlossSuffix, s) == s
    requires 7 < k ==> Rewrite(EmptySet(cfg), s) == s
    requires 8 < k ==> Rewrite(HSpace, s) == s
    requires 9 < k ==> Rewrite(Emphasis, s) == s
    requires 10 < k ==> Rewrite(InlineEmpty(cfg), s) == s
    requires 11 < k ==> Rewrite(GscAcc, s) == s
    requires Rewrite(Cascade(cfg)[k], s) == x
    requires MarkupFree(x)
    ensures Cleaned(cfg, s) == x
  {
    CascadeIs(cfg);
    forall j | 0 <= j < k ensures Rewrite(Cascade(cfg)[j], s) == s {
      if j == 0 {
        assert Cascade(cfg)[j] == UpperAbbrs(cfg);
      } else if j == 1 {
        assert Cascade(cfg)[j] == LowerAbbrs(cfg);
      } else if j == 2 {
        assert Cascade(cfg)[j] == ArgAbbrs(cfg);
      } else if j == 3 {
        assert Cascade(cfg)[j] == CapAbbrs(cfg);
      } else if j == 4 {
        assert Cascade(cfg)[j] == UpperRun;
      } else if j == 5 {
        assert Cascade(cfg)[j] == GlossArg;
      } else if j == 6 {
        assert Cascade(cfg)[j] == GlossSuffix;
      } else if j == 7 {
        assert Cascade(cfg)[j] == EmptySet(cfg);
      } else if j == 8 {
        assert Cascade(cfg)[j] == HSpace;
      } else if j == 9 {
        assert Cascade(cfg)[j] == Emphasis;
      } else if j == 10 {
        assert Cascade(cfg)[j] == InlineEmpty(cfg);
      } else {
        assert j == 11;
        assert Cascade(cfg)[j] == GscAcc;
      }
    }
    IdleOnMarkupFree(cfg, x);
    OnlyPassFires(Cascade(cfg), 0, k, s, x);
  }

  /** The `{\name}` passes cannot fire where `{` never precedes `\`. */
  lemma BraceTableIdle(names: seq<string>, upper: bool, s: string)
    requires NoPair(s, '{', '\\')
    ensures Rewrite(BraceTable(names, upper), s) == s
  {
    var rules := BraceTable(names, upper);
    forall i | 0 <= i < |s| ensures Inactive(rules, s[i..]) {
      forall j | 0 <= j < |rules| ensures MatchRule(rules[j], s[i..]) == None {
        var pat := "{\\" + names[j] + "}";
        assert Key(rules[j]) == pat;
        PrefixAt(s[i..], pat, 0);
        PrefixAt(s[i..], pat, 1);
      }
    }
    RewriteUnchanged(rules, s);
  }

  /** The `\name{}` pass cannot fire where `{` never precedes `}`. */
  lemma ArgTableIdle(names: seq<string>, s: string)
    requires NoPair(s, '{', '}')
    ensures Rewrite(ArgTable(names), s) == s
  {
    var rules := ArgTable(names);
    forall i | 0 <= i < |s| ensures Inactive(rules, s[i..]) {
      forall j | 0 <= j < |rules| ensures MatchRule(rules[j], s[i..]) == None {
        var n := names[j];
        var pat := "\\" + n + "{}";
        assert Key(rules[j]) == pat;
        assert pat[|n| + 1] == '{' && pat[|n| + 2] == '}';
        PrefixAt(s[i..], pat, |n| + 1);
        PrefixAt(s[i..], pat, |n| + 2);
      }
    }
    RewriteUnchanged(rules, s);
  }

  // ---------------------------------------------------------------------
  // Abbreviation macros

  /** Upper-casing undoes lower-casing on an abbreviation key. */
  lemma UpperLowerAbbr(a: string)
    requires WellFormedAbbr(a)
    ensures Upper(Lower(a)) == a
  {
    assert forall i :: 0 <= i < |a| ==> Upper(Lower(a))[i] == a[i];
  }

  /** Upper-casing undoes capitalisation on an abbreviation key. */
  lemma UpperCapitalizeAbbr(a: string)
    requires WellFormedAbbr(a)
    ensures Upper(Capitalize(a)) == a
  {
    var c := Capitalize(a);
    assert c == [UpperChar(a[0])] + Lower(a[1..]);
    forall i | 0 <= i < |a| ensures Upper(c)[i] == a[i] {
      if i > 0 {
        assert c[i] == LowerChar(a[i]);
      }
    }
  }

  /** A key whose lower-case form is itself a key has no letters, so lower-casing keeps it. */
  lemma LowerFixedAbbr(a: string)
    requires WellFormedAbbr(a) && WellFormedAbbr(Lower(a))
    ensures Lower(a) == a
  {
    forall i | 0 <= i < |a| ensures Lower(a)[i] == a[i] {
      assert AbbrChar(Lower(a)[i]);
    }
  }

  /** A key whose capitalised form is itself a key keeps its form under capitalisation. */
  lemma CapitalizeFixedAbbr(a: string)
    requires WellFormedAbbr(a) && WellFormedAbbr(Capitalize(a))
    ensures Capitalize(a) == a
  {
    var c := Capitalize(a);
    forall i | 0 <= i < |a| ensures c[i] == a[i] {
      assert AbbrChar(c[i]);
      if i > 0 {
        assert c[i] == LowerChar(a[i]);
      }
    }
  }

  /** The three spellings of every key of a well-formed configuration are made of name characters. */
  lemma ConfigNames(cfg: Config)
    requires WellFormedConfig(cfg)
    ensures forall j :: 0 <= j < |cfg.abbrs| ==> NameText(cfg.abbrs[j])
    ensures forall j :: 0 <= j < |Lowered(cfg.abbrs)| ==> NameText(Lowered(cfg.abbrs)[j])
    ensures forall j :: 0 <= j < |Capitalized(cfg.abbrs)| ==> NameText(Capitalized(cfg.abbrs)[j])
  {
    forall j | 0 <= j < |cfg.abbrs| ensures NameText(Capitalized(cfg.abbrs)[j]) {
      var a := cfg.abbrs[j];
      assert WellFormedAbbr(a);
      var c := Capitalize(a);
      assert c == [UpperChar(a[0])] + Lower(a[1..]);
      assert forall i :: 1 <= i < |c| ==> c[i] == LowerChar(a[i]);
    }
  }

  lemma NameFree(v: string)
    requires NameText(v)
    ensures MarkupFree(v) && '}' !in v
  {
    forall i | 0 <= i < |v| ensures v[i] != '{' && v[i] != '\\' && v[i] != '$' && v[i] != '}' {
      assert NameChar(v[i]);
    }
  }

  lemma CharAt(s: string, k: nat)
    ensures k < |s| ==> s[k] in s
  {
  }

  /**
   * Two wrapped names can only be prefixes of one another when they are
   * equal, provided the closing text cannot occur inside either name.
   */
  lemma DelimitedPrefix(pre: string, n: string, v: string, post: string)
    requires 0 < |post| && post[0] !in n && post[0] !in v
    ensures StartsWith(pre + v + post, pre + n + post) ==> n == v
  {
    var s, p := pre + v + post, pre + n + post;
    if StartsWith(s, p) {
      var k := if |n| < |v| then |n| else |v|;
      assert p[|pre| + k] == s[|pre| + k];
      CharAt(n, k);
      CharAt(v, k);
      forall i | 0 <= i < k ensures n[i] == v[i] {
        assert n[i] == p[|pre| + i] && s[|pre| + i] == v[i];
      }
    }
  }

  /** The replacement a `{\name}` or `\name{}` rule writes for `v`. */
  function Spelled(upper: bool, v: string): string {
    if upper then Upper(v) else v
  }

  /** One rule of a `{\name}` pass on the token `{\v}`: it matches all of it exactly when its name is `v`. */
  lemma BraceRuleOnMacro(names: seq<string>, upper: bool, v: string, j: nat)
    requires NameText(v) && j < |names| && NameText(names[j])
    ensures MatchRule(BraceTable(names, upper)[j], "{\\" + v + "}")
         == if names[j] == v then Some(Hit(|v| + 3, Spelled(upper, v))) else None
  {
    NameFree(v);
    NameFree(names[j]);
    DelimitedPrefix("{\\", names[j], v, "}");
  }

  /** A pass whose rules each miss `s` or match all of it with text `t`, one of them matching, returns `t`. */
  lemma PassOnWhole(rules: seq<Rule>, s: string, t: string, j: nat)
    requires j < |rules| && MatchRule(rules[j], s) == Some(Hit(|s|, t))
    requires forall i :: 0 <= i < |rules| ==> MatchRule(rules[i], s) == None || MatchRule(rules[i], s) == Some(Hit(|s|, t))
    ensures Rewrite(rules, s) == t
  {
    var h := FirstMatch(rules, s);
    assert h.Some?;
    var i :| 0 <= i < |rules| && MatchRule(rules[i], s) == h;
    RewriteWhole(rules, s, Hit(|s|, t));
  }

  /**
   * A `{\name}` pass on the token `{\v}`: it becomes the (possibly
   * upper-cased) `v` exactly when `v` is one of the names, and is left
   * alone otherwise.
   */
  lemma BracePassOnMacro(names: seq<string>, upper: bool, v: string)
    requires NameText(v)
    requires forall j :: 0 <= j < |names| ==> NameText(names[j])
    ensures Rewrite(BraceTable(names, upper), "{\\" + v + "}")
         == if v in names then Spelled(upper, v) else "{\\" + v + "}"
  {
    var s := "{\\" + v + "}";
    var rules := BraceTable(names, upper);
    forall j | 0 <= j < |rules|
      ensures MatchRule(rules[j], s) == if names[j] == v then Some(Hit(|s|, Spelled(upper, v))) else None
    {
      BraceRuleOnMacro(names, upper, v, j);
    }
    if v in names {
      var j :| 0 <= j < |names| && names[j] == v;
      PassOnWhole(rules, s, Spelled(upper, v), j);
    } else {
      BraceMacroMiss(names, upper, v);
    }
  }

  lemma BraceHeads(names: seq<string>, upper: bool)
    ensures HeadsAre(BraceTable(names, upper), '{')
  {
    var rules := BraceTable(names, upper);
    forall j | 0 <= j < |rules| ensures 0 < |Key(rules[j])| && Key(rules[j])[0] == '{' {
      assert Key(rules[j]) == "{\\" + names[j] + "}";
    }
  }

  /** Inside `{\v}` only the first character is a `{`. */
  lemma BraceMacroChars(v: string)
    requires NameText(v)
    ensures forall i :: 1 <= i < |"{\\" + v + "}"| ==> ("{\\" + v + "}")[i] != '{'
  {
    var s := "{\\" + v + "}";
    forall i | 1 <= i < |s| ensures s[i] != '{' {
      if 2 <= i < |s| - 1 {
        assert s[i] == v[i - 2];
        assert NameChar(v[i - 2]);
      }
    }
  }

  lemma BraceMacroMiss(names: seq<string>, upper: bool, v: string)
    requires NameText(v)
    requires Inactive(BraceTable(names, upper), "{\\" + v + "}")
    ensures Rewrite(BraceTable(names, upper), "{\\" + v + "}") == "{\\" + v + "}"
  {
    var s := "{\\" + v + "}";
    BraceHeads(names, upper);
    BraceMacroChars(v);
    assert s[0..] == s;
    IdleBut(BraceTable(names, upper), '{', s, 0);
  }

  lemma ArgRuleOnMacro(names: seq<string>, v: string, j: nat)
    requires NameText(v) && j < |names| && NameText(names[j])
    ensures MatchRule(ArgTable(names)[j], "\\" + v + "{}")
         == if names[j] == v then Some(Hit(|v| + 3, Upper(v))) else None
  {
    NameFree(v);
    NameFree(names[j]);
    DelimitedPrefix("\\", names[j], v, "{}");
  }

  lemma ArgHeads(names: seq<string>)
    ensures HeadsAre(ArgTable(names), '\\')
  {
    var rules := ArgTable(names);
    forall j | 0 <= j < |rules| ensures 0 < |Key(rules[j])| && Key(rules[j])[0] == '\\' {
      assert Key(rules[j]) == "\\" + names[j] + "{}";
    }
  }

  /** Inside `\v{}` only the first character is a `\`. */
  lemma ArgMacroChars(v: string)
    requires NameText(v)
    ensures forall i :: 1 <= i < |"\\" + v + "{}"| ==> ("\\" + v + "{}")[i] != '\\'
  {
    var s := "\\" + v + "{}";
    forall i | 1 <= i < |s| ensures s[i] != '\\' {
      if 1 <= i < |s| - 2 {
        assert s[i] == v[i - 1];
        assert NameChar(v[i - 1]);
      }
    }
  }

  lemma ArgMacroMiss(names: seq<string>, v: string)
    requires NameText(v)
    requires Inactive(ArgTable(names), "\\" + v + "{}")
    ensures Rewrite(ArgTable(names), "\\" + v + "{}") == "\\" + v + "{}"
  {
    var s := "\\" + v + "{}";
    ArgHeads(names);
    ArgMacroChars(v);
    assert s[0..] == s;
    IdleBut(ArgTable(names), '\\', s, 0);
  }

  /** A `\name{}` pass on the token `\v{}`, in the same way. */
  lemma ArgPassOnMacro(names: seq<string>, v: string)
    requires NameText(v)
    requires forall j :: 0 <= j < |names| ==> NameText(names[j])
    ensures Rewrite(ArgTable(names), "\\" + v + "{}")
         == if v in names then Upper(v) else "\\" + v + "{}"
  {
    var s := "\\" + v + "{}";
    var rules := ArgTable(names);
    forall j | 0 <= j < |rules|
      ensures MatchRule(rules[j], s) == if names[j] == v then Some(Hit(|s|, Upper(v))) else None
    {
      ArgRuleOnMacro(names, v, j);
    }
    if v in names {
      var j :| 0 <= j < |names| && names[j] == v;
      PassOnWhole(rules, s, Upper(v), j);
    } else {
      ArgMacroMiss(names, v);
    }
  }

  lemma BraceShapePairs(v: string)
    requires NameText(v)
    ensures NoPair("{\\" + v + "}", '{', '}')
  {
    var s := "{\\" + v + "}";
    assert forall i :: 2 <= i < |s| - 1 ==> s[i] == v[i - 2] && NameChar(v[i - 2]);
  }

  lemma ArgShapePairs(v: string)
    requires NameText(v)
    ensures NoPair("\\" + v + "{}", '{', '\\')
  {
    var s := "\\" + v + "{}";
    assert forall i :: 1 <= i < |s| - 2 ==> s[i] == v[i - 1] && NameChar(v[i - 1]);
  }

  lemma LoweredHas(names: seq<string>, x: string)
    requires x in names
    ensures Lower(x) in Lowered(names) && Capitalize(x) in Capitalized(names)
  {
    var j :| 0 <= j < |names| && names[j] == x;
    assert Lowered(names)[j] == Lower(x);
    assert Capitalized(names)[j] == Capitalize(x);
  }

  /** Facts every abbreviation lemma needs about a key `x` of a well-formed configuration. */
  lemma KeyFacts(cfg: Config, x: string)
    requires WellFormedConfig(cfg) && x in cfg.abbrs
    ensures WellFormedAbbr(x) && MarkupFree(x)
    ensures NameText(x) && NameText(Lower(x)) && NameText(Capitalize(x))
    ensures Lower(x) in Lowered(cfg.abbrs) && Capitalize(x) in Capitalized(cfg.abbrs)
    ensures forall j :: 0 <= j < |cfg.abbrs| ==> NameText(cfg.abbrs[j])
    ensures forall j :: 0 <= j < |Lowered(cfg.abbrs)| ==> NameText(Lowered(cfg.abbrs)[j])
    ensures forall j :: 0 <= j < |Capitalized(cfg.abbrs)| ==> NameText(Capitalized(cfg.abbrs)[j])
  {
    ConfigNames(cfg);
    NameFree(x);
    LoweredHas(cfg.abbrs, x);
  }

  /** The first pass on `{\v}`. */
  lemma UpperAbbrStep(cfg: Config, v: string)
    requires WellFormedConfig(cfg) && NameText(v)
    ensures Rewrite(UpperAbbrs(cfg), "{\\" + v + "}") == if v in cfg.abbrs then v else "{\\" + v + "}"
  {
    ConfigNames(cfg);
    BracePassOnMacro(cfg.abbrs, false, v);
  }

  /** The second pass on `{\v}`. */
  lemma LowerAbbrStep(cfg: Config, v: string)
    requires WellFormedConfig(cfg) && NameText(v)
    ensures Rewrite(LowerAbbrs(cfg), "{\\" + v + "}")
         == if v in Lowered(cfg.abbrs) then Upper(v) else "{\\" + v + "}"
  {
    ConfigNames(cfg);
    BracePassOnMacro(Lowered(cfg.abbrs), true, v);
  }

  /** The fourth pass on `{\v}`. */
  lemma CapAbbrStep(cfg: Config, v: string)
    requires WellFormedConfig(cfg) && NameText(v)
    ensures Rewrite(CapAbbrs(cfg), "{\\" + v + "}")
         == if v in Capitalized(cfg.abbrs) then Upper(v) else "{\\" + v + "}"
  {
    ConfigNames(cfg);
    BracePassOnMacro(Capitalized(cfg.abbrs), true, v);
  }

  /** The third pass on `\v{}`. */
  lemma ArgAbbrStep(cfg: Config, v: string)
    requires WellFormedConfig(cfg) && NameText(v)
    ensures Rewrite(ArgAbbrs(cfg), "\\" + v + "{}")
         == if v in Lowered(cfg.abbrs) then Upper(v) else "\\" + v + "{}"
  {
    ConfigNames(cfg);
    ArgPassOnMacro(Lowered(cfg.abbrs), v);
  }

  /** The third pass leaves `{\v}` alone. */
  lemma BraceFormArgIdle(cfg: Config, v: string)
    requires NameText(v)
    ensures Rewrite(ArgAbbrs(cfg), "{\\" + v + "}") == "{\\" + v + "}"
  {
    BraceShapePairs(v);
    ArgTableIdle(Lowered(cfg.abbrs), "{\\" + v + "}");
  }

  /** The `{\name}` passes leave `\v{}` alone. */
  lemma ArgFormBraceIdle(cfg: Config, v: string)
    requires NameText(v)
    ensures Rewrite(UpperAbbrs(cfg), "\\" + v + "{}") == "\\" + v + "{}"
    ensures Rewrite(LowerAbbrs(cfg), "\\" + v + "{}") == "\\" + v + "{}"
  {
    ArgShapePairs(v);
    BraceTableIdle(cfg.abbrs, false, "\\" + v + "{}");
    BraceTableIdle(Lowered(cfg.abbrs), true, "\\" + v + "{}");
  }

  /** `{\X}` cleans to `X` for every key `X`. */
  lemma CleanUpperAbbr(cfg: Config, x: string)
    requires WellFormedConfig(cfg) && x in cfg.abbrs
    ensures Cleaned(cfg, "{\\" + x + "}") == x
  {
    KeyFacts(cfg, x);
    UpperAbbrStep(cfg, x);
    CascadeIs(cfg);
    CleanedVia(cfg, "{\\" + x + "}", 0, x);
  }

  /** `{\x}` (the key in lower case) cleans to `X`. */
  lemma CleanLowerAbbr(cfg: Config, x: string)
    requires WellFormedConfig(cfg) && x in cfg.abbrs
    ensures Cleaned(cfg, "{\\" + Lower(x) + "}") == x
  {
    var lx := Lower(x);
    KeyFacts(cfg, x);
    UpperAbbrStep(cfg, lx);
    LowerAbbrStep(cfg, lx);
    UpperLowerAbbr(x);
    CascadeIs(cfg);
    if lx in cfg.abbrs {
      LowerFixedAbbr(x);
      CleanedVia(cfg, "{\\" + lx + "}", 0, x);
    } else {
      CleanedVia(cfg, "{\\" + lx + "}", 1, x);
    }
  }

  /** `\x{}` (the key in lower case with an empty argument) cleans to `X`. */
  lemma CleanArgAbbr(cfg: Config, x: string)
    requires WellFormedConfig(cfg) && x in cfg.abbrs
    ensures Cleaned(cfg, "\\" + Lower(x) + "{}") == x
  {
    var lx := Lower(x);
    KeyFacts(cfg, x);
    ArgFormBraceIdle(cfg, lx);
    ArgAbbrStep(cfg, lx);
    UpperLowerAbbr(x);
    CascadeIs(cfg);
    CleanedVia(cfg, "\\" + lx + "{}", 2, x);
  }

  /** `{\Xx}` (the key capitalised) cleans to `X`. */
  lemma CleanCapitalizedAbbr(cfg: Config, x: string)
    requires WellFormedConfig(cfg) && x in cfg.abbrs
    ensures Cleaned(cfg, "{\\" + Capitalize(x) + "}") == x
  {
    var cx := Capitalize(x);
    KeyFacts(cfg, x);
    UpperAbbrStep(cfg, cx);
    LowerAbbrStep(cfg, cx);
    BraceFormArgIdle(cfg, cx);
    CapAbbrStep(cfg, cx);
    UpperCapitalizeAbbr(x);
    CascadeIs(cfg);
    if cx in cfg.abbrs {
      CapitalizeFixedAbbr(x);
      CleanedVia(cfg, "{\\" + cx + "}", 0, x);
    } else if cx in Lowered(cfg.abbrs) {
      CleanedVia(cfg, "{\\" + cx + "}", 1, x);
    } else {
      CleanedVia(cfg, "{\\" + cx + "}", 3, x);
    }
  }

  // ---------------------------------------------------------------------
  // The fixed macro shapes

  /** Every key of `rules` contains the character `c`. */
  predicate KeysContain(rules: seq<Rule>, c: char) {
    forall j :: 0 <= j < |rules| ==> c in Key(rules[j])
  }

  /** Every character of `t` is of class `cls`. */
  predicate AllIn(cls: CharClass, t: string) {
    forall i :: 0 <= i < |t| ==> InClass(cls, t[i])
  }

  /** A one-group pass over `open + t + close`, where `t` is a run of the class, returns the group's text. */
  lemma GroupPassWrapped(open: string, cls: CharClass, close: string, out: GroupOut, t: string)
    requires 0 < |open| && 0 < |close| && !InClass(cls, close[0])
    requires 0 < |t| && AllIn(cls, t)
    ensures Rewrite([Group(open, cls, close, out)], open + t + close) == GroupText(out, t)
  {
    var s := open + t + close;
    assert forall i :: |open| <= i < |open| + |t| ==> s[i] == t[i - |open|];
    assert s[|open|..|open| + |t|] == t && s[|open| + |t|..] == close;
    GroupPassWhole(open, cls, close, out, s, |t|);
  }

  /** A one-rule pass whose key begins with `h` leaves `s` alone when its one `h` does not start a match. */
  lemma OnePassIdleAt(rules: seq<Rule>, h: char, s: string, p: nat)
    requires |rules| == 1 && 0 < |Key(rules[0])| && Key(rules[0])[0] == h
    requires forall i :: 0 <= i < |s| && i != p ==> s[i] != h
    requires p < |s| ==> MatchRule(rules[0], s[p..]) == None
    ensures Rewrite(rules, s) == s
  {
    IdleBut(rules, h, s, p);
  }

  /** `t` has a character that is not a capital letter. */
  predicate HasNonCapital(t: string) {
    exists i :: 0 <= i < |t| && !InClass(UpperLetter, t[i])
  }

  lemma SuffixChars(s: string, i: nat, c: char)
    requires i <= |s|
    ensures c in s[i..] ==> c in s
  {
    if c in s[i..] {
      var k :| 0 <= k < |s[i..]| && s[i..][k] == c;
      assert s[i + k] == c;
    }
  }

  /** A pass cannot fire in a text that lacks a character all of its keys contain. */
  lemma KeyCharAbsent(rules: seq<Rule>, c: char, s: string)
    requires KeysContain(rules, c) && c !in s
    ensures Rewrite(rules, s) == s
  {
    forall i | 0 <= i < |s| ensures Inactive(rules, s[i..]) {
      SuffixChars(s, i, c);
      forall j | 0 <= j < |rules| ensures MatchRule(rules[j], s[i..]) == None {
        var q :| 0 <= q < |Key(rules[j])| && Key(rules[j])[q] == c;
        PrefixAt(s[i..], Key(rules[j]), q);
        CharAt(s[i..], q);
      }
    }
    RewriteUnchanged(rules, s);
  }

  lemma BraceKeys(names: seq<string>, upper: bool)
    ensures KeysContain(BraceTable(names, upper), '{') && KeysContain(BraceTable(names, upper), '\\')
  {
    var rules := BraceTable(names, upper);
    forall j | 0 <= j < |rules| ensures '{' in Key(rules[j]) && '\\' in Key(rules[j]) {
      assert Key(rules[j])[0] == '{' && Key(rules[j])[1] == '\\';
    }
  }

  lemma ArgKeys(names: seq<string>)
    ensures KeysContain(ArgTable(names), '{') && KeysContain(ArgTable(names), '\\')
  {
    var rules := ArgTable(names);
    forall j | 0 <= j < |rules| ensures '{' in Key(rules[j]) && '\\' in Key(rules[j]) {
      assert Key(rules[j])[0] == '\\' && Key(rules[j])[|names[j]| + 1] == '{';
    }
  }

  /** The characters the keys of the abbreviation passes share. */
  lemma AbbrKeys(cfg: Config)
    ensures KeysContain(UpperAbbrs(cfg), '{') && KeysContain(LowerAbbrs(cfg), '{')
    ensures KeysContain(ArgAbbrs(cfg), '{') && KeysContain(CapAbbrs(cfg), '{')
    ensures KeysContain(UpperAbbrs(cfg), '\\') && KeysContain(LowerAbbrs(cfg), '\\')
    ensures KeysContain(ArgAbbrs(cfg), '\\') && KeysContain(CapAbbrs(cfg), '\\')
  {
    BraceKeys(cfg.abbrs, false);
    BraceKeys(Lowered(cfg.abbrs), true);
    BraceKeys(Capitalized(cfg.abbrs), true);
    ArgKeys(Lowered(cfg.abbrs));
  }

  /** The characters the keys of the fixed passes contain. */
  lemma FixedKeys(cfg: Config)
    ensures KeysContain(UpperRun, '{') && KeysContain(GlossArg, '{') && KeysContain(GlossArg, 'g')
    ensures KeysContain(GlossSuffix, 'g') && KeysContain(GlossSuffix, 'l')
    ensures KeysContain(EmptySet(cfg), '$') && KeysContain(HSpace, '{') && KeysContain(HSpace, 'h')
    ensures KeysContain(Emphasis, '{') && KeysContain(InlineEmpty(cfg), '(') && KeysContain(GscAcc, 'g')
  {
    OneKeyContains(UpperRun[0], '{', 0);
    OneKeyContains(GlossArg[0], '{', 6);
    OneKeyContains(GlossArg[0], 'g', 1);
    OneKeyContains(GlossSuffix[0], 'g', 1);
    OneKeyContains(GlossSuffix[0], 'l', 2);
    OneKeyContains(EmptySet(cfg)[0], '$', 0);
    OneKeyContains(HSpace[0], '{', 7);
    OneKeyContains(HSpace[0], 'h', 1);
    OneKeyContains(InlineEmpty(cfg)[0], '(', 1);
    OneKeyContains(GscAcc[0], 'g', 1);
    EmphasisKeys();
  }

  /** A one-rule pass whose key has `c` at index `i` has `c` in all its keys. */
  lemma OneKeyContains(r: Rule, c: char, i: nat)
    requires i < |Key(r)| && Key(r)[i] == c
    ensures KeysContain([r], c)
  {
    assert [r][0] == r;
  }

  /** A one-rule pass leaves alone a text that lacks a character of its key. */
  lemma OneRuleAbsent(rules: seq<Rule>, c: char, i: nat, s: string)
    requires |rules| == 1 && i < |Key(rules[0])| && Key(rules[0])[i] == c && c !in s
    ensures Rewrite(rules, s) == s
  {
    KeyCharAbsent(rules, c, s);
  }

  lemma EmphasisKeys()
    ensures KeysContain(Emphasis, '{')
  {
    assert Key(Emphasis[0])[5] == '{' && Key(Emphasis[1])[5] == '{' && Key(Emphasis[2])[3] == '{';
  }

  /** `{([A-Z]+)}` cannot match at a `{` not followed by a capital. */
  lemma UpperRunEmpty(u: string)
    requires u == [] || !InClass(UpperLetter, u[0])
    ensures MatchRule(UpperRun[0], "{" + u) == None
  {
    assert ("{" + u)[1..] == u;
  }

  /** Nor where the capitals after `{` end at a character other than `}`. */
  lemma UpperRunUnclosed(t: string, rest: string)
    requires '}' !in t && HasNonCapital(t)
    ensures MatchRule(UpperRun[0], "{" + t + rest) == None
  {
    var w := "{" + t + rest;
    assert w[1..] == t + rest;
    var n := ClassRun(UpperLetter, t + rest);
    var i :| 0 <= i < |t| && !InClass(UpperLetter, t[i]);
    assert (t + rest)[i] == t[i];
    assert n <= i;
    assert w[1 + n] == t[n];
    CharAt(t, n);
    PrefixAt(w[1 + n..], "}", 0);
  }

  /** A one-rule literal pass whose pattern is all of `s`. */
  lemma LitPassWhole(pat: string, rep: string)
    requires 0 < |pat|
    ensures Rewrite([Lit(pat, rep)], pat) == rep
  {
    RewriteWhole([Lit(pat, rep)], pat, Hit(|pat|, rep));
  }

  // `{A}`: a braced run of capitals

  lemma CapitalRunBefore(cfg: Config, a: string)
    requires AllIn(UpperLetter, a)
    ensures var s := "{" + a + "}";
            Rewrite(UpperAbbrs(cfg), s) == s && Rewrite(LowerAbbrs(cfg), s) == s &&
            Rewrite(ArgAbbrs(cfg), s) == s && Rewrite(CapAbbrs(cfg), s) == s
  {
    var s := "{" + a + "}";
    assert forall i :: 1 <= i < |s| - 1 ==> s[i] == a[i - 1];
    assert '\\' !in s;
    AbbrKeys(cfg);
    KeyCharAbsent(UpperAbbrs(cfg), '\\', s);
    KeyCharAbsent(LowerAbbrs(cfg), '\\', s);
    KeyCharAbsent(ArgAbbrs(cfg), '\\', s);
    KeyCharAbsent(CapAbbrs(cfg), '\\', s);
  }

  lemma CapitalRunFires(a: string)
    requires 0 < |a| && AllIn(UpperLetter, a)
    ensures Rewrite(UpperRun, "{" + a + "}") == a && MarkupFree(a)
  {
    GroupPassWrapped("{", UpperLetter, "}", KeepGroup, a);
  }

  /** `{A}` cleans to `A` for every non-empty run `A` of capitals. */
  lemma CleanCapitalRun(cfg: Config, a: string)
    requires 0 < |a| && AllIn(UpperLetter, a)
    ensures Cleaned(cfg, "{" + a + "}") == a
  {
    CapitalRunBefore(cfg, a);
    CapitalRunFires(a);
    CascadeIs(cfg);
    CleanedVia(cfg, "{" + a + "}", 4, a);
  }

  // `\gloss{g}`: a gloss in lower case

  /** Where every `{` is followed by neither `\` nor `}`, no abbreviation pass fires. */
  lemma AbbrPassesIdle(cfg: Config, s: string)
    requires NoPair(s, '{', '\\') && NoPair(s, '{', '}')
    ensures Rewrite(UpperAbbrs(cfg), s) == s && Rewrite(LowerAbbrs(cfg), s) == s
    ensures Rewrite(ArgAbbrs(cfg), s) == s && Rewrite(CapAbbrs(cfg), s) == s
  {
    BraceTableIdle(cfg.abbrs, false, s);
    BraceTableIdle(Lowered(cfg.abbrs), true, s);
    BraceTableIdle(Capitalized(cfg.abbrs), true, s);
    ArgTableIdle(Lowered(cfg.abbrs), s);
  }

  lemma GlossPairs(g: string)
    requires 0 < |g| && AllIn(GlossArgChar, g)
    ensures NoPair("\\gloss{" + g + "}", '{', '\\') && NoPair("\\gloss{" + g + "}", '{', '}')
  {
    var s := "\\gloss{" + g + "}";
    assert forall i :: 7 <= i < |s| - 1 ==> s[i] == g[i - 7];
  }

  lemma GlossBefore(cfg: Config, g: string)
    requires 0 < |g| && AllIn(GlossArgChar, g)
    ensures var s := "\\gloss{" + g + "}";
            Rewrite(UpperAbbrs(cfg), s) == s && Rewrite(LowerAbbrs(cfg), s) == s &&
            Rewrite(ArgAbbrs(cfg), s) == s && Rewrite(CapAbbrs(cfg), s) == s &&
            Rewrite(UpperRun, s) == s
  {
    var s := "\\gloss{" + g + "}";
    GlossPairs(g);
    AbbrPassesIdle(cfg, s);
    GlossUpperRunIdle(g);
  }

  lemma GlossUpperRunIdle(g: string)
    requires 0 < |g| && AllIn(GlossArgChar, g)
    ensures Rewrite(UpperRun, "\\gloss{" + g + "}") == "\\gloss{" + g + "}"
  {
    var s := "\\gloss{" + g + "}";
    GlossBraces(g);
    UpperRunEmpty(g + "}");
    OnePassIdleAt(UpperRun, '{', s, 6);
  }

  /** In `\gloss{g}` the only `{` is the one at index 6. */
  lemma GlossBraces(g: string)
    requires 0 < |g| && AllIn(GlossArgChar, g)
    ensures var s := "\\gloss{" + g + "}";
            s[6..] == "{" + (g + "}") && !InClass(UpperLetter, (g + "}")[0]) &&
            forall i :: 0 <= i < |s| && i != 6 ==> s[i] != '{'
  {
    assert (g + "}")[0] == g[0];
    var s := "\\gloss{" + g + "}";
    assert forall i :: 7 <= i < |s| - 1 ==> s[i] == g[i - 7];
  }

  lemma GlossFires(g: string)
    requires 0 < |g| && AllIn(GlossArgChar, g)
    ensures Rewrite(GlossArg, "\\gloss{" + g + "}") == Upper(g) && MarkupFree(Upper(g))
  {
    GroupPassWrapped("\\gloss{", GlossArgChar, "}", UpperGroup, g);
    UpperGlossFree(g);
  }

  /** Capitalising gloss characters yields no TeX markup. */
  lemma UpperGlossFree(g: string)
    requires AllIn(GlossArgChar, g)
    ensures MarkupFree(Upper(g))
  {
    assert forall i :: 0 <= i < |g| ==> Upper(g)[i] == UpperChar(g[i]);
  }

  /** `\gloss{g}` cleans to `g` in capitals. */
  lemma CleanGloss(cfg: Config, g: string)
    requires 0 < |g| && AllIn(GlossArgChar, g)
    ensures Cleaned(cfg, "\\gloss{" + g + "}") == Upper(g)
  {
    GlossBefore(cfg, g);
    GlossFires(g);
    CascadeIs(cfg);
    CleanedVia(cfg, "\\gloss{" + g + "}", 5, Upper(g));
  }

  // `\glossA{}`: a capital gloss written as a macro name

  lemma LoweredNoCapitals(names: seq<string>, j: nat)
    requires j < |names|
    ensures forall k :: 0 <= k < |Lowered(names)[j]| ==> !InClass(UpperLetter, Lowered(names)[j][k])
  {
  }

  /** A `\name{}` rule for a lower-case name never matches `\glossA{}`. */
  lemma ArgRuleMissesGlossSuffix(n: string, a: string)
    requires NameText(n) && forall k :: 0 <= k < |n| ==> !InClass(UpperLetter, n[k])
    requires 0 < |a| && AllIn(UpperLetter, a)
    ensures MatchRule(Lit("\\" + n + "{}", Upper(n)), "\\gloss" + a + "{}") == None
  {
    var v := "gloss" + a;
    assert "\\gloss" + a + "{}" == "\\" + v + "{}";
    assert forall i :: 5 <= i < |v| ==> v[i] == a[i - 5];
    assert NameText(v);
    NameFree(v);
    NameFree(n);
    DelimitedPrefix("\\", n, v, "{}");
    assert v[5] == a[0];
  }

  /** `\name{}` with a lower-cased key never matches `\glossA{}`. */
  lemma GlossSuffixArgIdle(cfg: Config, a: string)
    requires WellFormedConfig(cfg) && 0 < |a| && AllIn(UpperLetter, a)
    ensures Rewrite(ArgAbbrs(cfg), "\\gloss" + a + "{}") == "\\gloss" + a + "{}"
  {
    var names := Lowered(cfg.abbrs);
    ConfigNames(cfg);
    forall j | 0 <= j < |names| ensures forall k :: 0 <= k < |names[j]| ==> !InClass(UpperLetter, names[j][k]) {
      LoweredNoCapitals(cfg.abbrs, j);
    }
    ArgTableIdleOnGlossSuffix(names, a);
  }

  /** No rule of a table of lower-case `\name{}` rules matches `\glossA{}`. */
  lemma ArgTableMissesGlossSuffix(names: seq<string>, a: string)
    requires forall j :: 0 <= j < |names| ==> NameText(names[j])
    requires forall j :: 0 <= j < |names| ==> forall k :: 0 <= k < |names[j]| ==> !InClass(UpperLetter, names[j][k])
    requires 0 < |a| && AllIn(UpperLetter, a)
    ensures forall j :: 0 <= j < |ArgTable(names)| ==> MatchRule(ArgTable(names)[j], "\\gloss" + a + "{}") == None
  {
    forall j | 0 <= j < |ArgTable(names)| ensures MatchRule(ArgTable(names)[j], "\\gloss" + a + "{}") == None {
      ArgRuleMissesGlossSuffix(names[j], a);
    }
  }

  /** A table of lower-case `\name{}` rules leaves `\glossA{}` alone. */
  lemma ArgTableIdleOnGlossSuffix(names: seq<string>, a: string)
    requires forall j :: 0 <= j < |names| ==> NameText(names[j])
    requires forall j :: 0 <= j < |names| ==> forall k :: 0 <= k < |names[j]| ==> !InClass(UpperLetter, names[j][k])
    requires 0 < |a| && AllIn(UpperLetter, a)
    ensures Rewrite(ArgTable(names), "\\gloss" + a + "{}") == "\\gloss" + a + "{}"
  {
    var s := "\\gloss" + a + "{}";
    var rules := ArgTable(names);
    GlossSuffixMarks(a);
    ArgTableMissesGlossSuffix(names, a);
    assert s[0..] == s;
    ArgKeys(names);
    IdleBut(rules, '\\', s, 0);
  }


  lemma GlossSuffixBraceIdle(cfg: Config, a: string)
    requires AllIn(UpperLetter, a)
    ensures var s := "\\gloss" + a + "{}";
            Rewrite(UpperAbbrs(cfg), s) == s && Rewrite(LowerAbbrs(cfg), s) == s &&
            Rewrite(CapAbbrs(cfg), s) == s
  {
    var s := "\\gloss" + a + "{}";
    assert forall i :: 6 <= i < |s| - 2 ==> s[i] == a[i - 6];
    assert NoPair(s, '{', '\\');
    BraceTableIdle(cfg.abbrs, false, s);
    BraceTableIdle(Lowered(cfg.abbrs), true, s);
    BraceTableIdle(Capitalized(cfg.abbrs), true, s);
  }

  lemma GlossSuffixBefore(a: string)
    requires 0 < |a| && AllIn(UpperLetter, a)
    ensures var s := "\\gloss" + a + "{}";
            Rewrite(UpperRun, s) == s && Rewrite(GlossArg, s) == s
  {
    var s := "\\gloss" + a + "{}";
    GlossSuffixMarks(a);
    UpperRunEmpty("}");
    OnePassIdleAt(UpperRun, '{', s, |s| - 2);
    PrefixAt(s, "\\gloss{", 6);
    OnePassIdleAt(GlossArg, '\\', s, 0);
  }

  /** In `\glossA{}` the only `{` is the second-last character, the only `\` the first, and a capital follows `\gloss`. */
  lemma GlossSuffixMarks(a: string)
    requires 0 < |a| && AllIn(UpperLetter, a)
    ensures var s := "\\gloss" + a + "{}";
            s[|s| - 2..] == "{" + "}" && s[6] == a[0] &&
            (forall i :: 0 <= i < |s| && i != |s| - 2 ==> s[i] != '{') &&
            (forall i :: 0 <= i < |s| && i != 0 ==> s[i] != '\\')
  {
    var s := "\\gloss" + a + "{}";
    assert forall i :: 6 <= i < |s| - 2 ==> s[i] == a[i - 6];
  }

  lemma GlossSuffixFires(a: string)
    requires 0 < |a| && AllIn(UpperLetter, a)
    ensures Rewrite(GlossSuffix, "\\gloss" + a + "{}") == a && MarkupFree(a)
  {
    GroupPassWrapped("\\gloss", UpperLetter, "{}", KeepGroup, a);
  }

  /** `\glossA{}` cleans to `A` for every non-empty run `A` of capitals. */
  lemma CleanGlossSuffix(cfg: Config, a: string)
    requires WellFormedConfig(cfg) && 0 < |a| && AllIn(UpperLetter, a)
    ensures Cleaned(cfg, "\\gloss" + a + "{}") == a
  {
    GlossSuffixBraceIdle(cfg, a);
    GlossSuffixArgIdle(cfg, a);
    GlossSuffixBefore(a);
    GlossSuffixFires(a);
    CascadeIs(cfg);
    CleanedVia(cfg, "\\gloss" + a + "{}", 6, a);
  }

  // `$\emptyset$`

  lemma EmptySetBefore(cfg: Config)
    ensures var s := "$\\emptyset$";
            Rewrite(UpperAbbrs(cfg), s) == s && Rewrite(LowerAbbrs(cfg), s) == s &&
            Rewrite(ArgAbbrs(cfg), s) == s && Rewrite(CapAbbrs(cfg), s) == s &&
            Rewrite(UpperRun, s) == s && Rewrite(GlossArg, s) == s && Rewrite(GlossSuffix, s) == s
  {
    var s := "$\\emptyset$";
    assert '{' !in s && 'g' !in s;
    AbbrKeys(cfg);
    FixedKeys(cfg);
    KeyCharAbsent(UpperAbbrs(cfg), '{', s);
    KeyCharAbsent(LowerAbbrs(cfg), '{', s);
    KeyCharAbsent(ArgAbbrs(cfg), '{', s);
    KeyCharAbsent(CapAbbrs(cfg), '{', s);
    KeyCharAbsent(UpperRun, '{', s);
    KeyCharAbsent(GlossArg, '{', s);
    KeyCharAbsent(GlossSuffix, 'g', s);
  }

  /** `$\emptyset$` cleans to the non-overt element marker. */
  lemma CleanEmptySet(cfg: Config)
    requires WellFormedConfig(cfg)
    ensures Cleaned(cfg, "$\\emptyset$") == cfg.nonOvert
  {
    EmptySetBefore(cfg);
    LitPassWhole("$\\emptyset$", cfg.nonOvert);
    CascadeIs(cfg);
    CleanedVia(cfg, "$\\emptyset$", 7, cfg.nonOvert);
  }

  // `\name{t}` for the macros whose argument is dropped or kept

  /** A macro name: a non-empty word of lower-case letters. */
  predicate LowerWord(name: string) {
    0 < |name| && forall i :: 0 <= i < |name| ==> 'a' <= name[i] <= 'z'
  }

  /** An argument the cleaner drops or keeps whole: plain text up to the closing brace. */
  predicate PlainArg(t: string) {
    0 < |t| && MarkupFree(t) && '}' !in t && HasNonCapital(t)
  }

  function Macro(name: string, t: string): string {
    "\\" + name + "{" + t + "}"
  }

  lemma MacroChars(name: string, t: string)
    requires LowerWord(name) && PlainArg(t)
    ensures var s := Macro(name, t);
            s[0] == '\\' && s[|name| + 1] == '{' && s[|s| - 1] == '}' &&
            (forall i :: 1 <= i <= |name| ==> s[i] == name[i - 1]) &&
            (forall i :: |name| + 2 <= i < |s| - 1 ==> s[i] == t[i - |name| - 2])
  {
  }

  lemma MacroPairs(name: string, t: string)
    requires LowerWord(name) && PlainArg(t)
    ensures NoPair(Macro(name, t), '{', '\\') && NoPair(Macro(name, t), '{', '}')
  {
    var s := Macro(name, t);
    MacroChars(name, t);
    forall i | 0 <= i < |s| - 1 ensures !(s[i] == '{' && s[i + 1] == '\\') && !(s[i] == '{' && s[i + 1] == '}') {
      if |name| + 2 <= i {
        CharAt(t, i - |name| - 2);
      }
      CharAt(t, 0);
    }
  }

  lemma MacroUpperRunIdle(name: string, t: string)
    requires LowerWord(name) && PlainArg(t)
    ensures Rewrite(UpperRun, Macro(name, t)) == Macro(name, t)
  {
    var s := Macro(name, t);
    var p := |name| + 1;
    MacroChars(name, t);
    assert s[p..] == "{" + t + "}";
    UpperRunUnclosed(t, "}");
    forall i | 0 <= i < |s| && i != p ensures s[i] != '{' {
      if p < i < |s| - 1 {
        CharAt(t, i - p - 1);
      }
    }
    IdleBut(UpperRun, '{', s, p);
  }

  /** Backslashes stand only at the start of a macro. */
  lemma MacroOneBackslash(name: string, t: string)
    requires LowerWord(name) && PlainArg(t)
    ensures forall i :: 0 < i < |Macro(name, t)| ==> Macro(name, t)[i] != '\\'
  {
    var s := Macro(name, t);
    MacroChars(name, t);
    forall i | 0 < i < |s| ensures s[i] != '\\' {
      if |name| + 1 < i < |s| - 1 {
        CharAt(t, i - |name| - 2);
      }
    }
  }

  /** A one-backslash pass whose keys all differ from the macro at its second character. */
  lemma MacroSecondCharIdle(rules: seq<Rule>, name: string, t: string)
    requires LowerWord(name) && PlainArg(t) && HeadsAre(rules, '\\')
    requires forall j :: 0 <= j < |rules| ==> 1 < |Key(rules[j])| && Key(rules[j])[1] != name[0]
    ensures Rewrite(rules, Macro(name, t)) == Macro(name, t)
  {
    var s := Macro(name, t);
    MacroChars(name, t);
    MacroOneBackslash(name, t);
    forall j | 0 <= j < |rules| ensures MatchRule(rules[j], s) == None {
      PrefixAt(s, Key(rules[j]), 1);
    }
    assert s[0..] == s;
    IdleBut(rules, '\\', s, 0);
  }

  /** The abbreviation passes leave `\\name{t}` alone. */
  lemma MacroAbbrIdle(cfg: Config, name: string, t: string)
    requires LowerWord(name) && PlainArg(t)
    ensures var s := Macro(name, t);
            Rewrite(UpperAbbrs(cfg), s) == s && Rewrite(LowerAbbrs(cfg), s) == s &&
            Rewrite(ArgAbbrs(cfg), s) == s && Rewrite(CapAbbrs(cfg), s) == s
  {
    MacroPairs(name, t);
    AbbrPassesIdle(cfg, Macro(name, t));
  }

  /** Passes 5 to 8 leave `\\name{t}` alone unless the name starts with `g`. */
  lemma MacroBefore(cfg: Config, name: string, t: string)
    requires LowerWord(name) && PlainArg(t) && name[0] != 'g'
    ensures var s := Macro(name, t);
            Rewrite(UpperRun, s) == s && Rewrite(GlossArg, s) == s &&
            Rewrite(GlossSuffix, s) == s && Rewrite(EmptySet(cfg), s) == s
  {
    var s := Macro(name, t);
    MacroUpperRunIdle(name, t);
    MacroSecondCharIdle(GlossArg, name, t);
    MacroSecondCharIdle(GlossSuffix, name, t);
    MacroDollarFree(name, t);
    FixedKeys(cfg);
    KeyCharAbsent(EmptySet(cfg), '$', s);
  }

  lemma MacroDollarFree(name: string, t: string)
    requires LowerWord(name) && PlainArg(t)
    ensures '$' !in Macro(name, t)
  {
    var s := Macro(name, t);
    MacroChars(name, t);
    forall i | 0 <= i < |s| ensures s[i] != '$' {
      if |name| + 1 < i < |s| - 1 {
        CharAt(t, i - |name| - 2);
      }
    }
  }

  /** The argument of a macro spans from just after its `{` to just before its final `}`. */
  lemma MacroArg(name: string, t: string)
    requires LowerWord(name) && PlainArg(t)
    ensures var s := Macro(name, t);
            s[|name| + 2..|name| + 2 + |t|] == t && s[|name| + 2 + |t|..] == "}" &&
            StartsWith(s, "\\" + name + "{") &&
            forall i :: |name| + 2 <= i < |name| + 2 + |t| ==> InClass(NotCloseBrace, s[i])
  {
    var s := Macro(name, t);
    MacroChars(name, t);
    assert s == ("\\" + name + "{") + t + "}";
    forall i | |name| + 2 <= i < |name| + 2 + |t| ensures InClass(NotCloseBrace, s[i]) {
      CharAt(t, i - |name| - 2);
    }
  }

  /** `\hspace{t}` is removed. */
  lemma HSpaceFires(t: string)
    requires PlainArg(t)
    ensures Rewrite(HSpace, Macro("hspace", t)) == ""
  {
    MacroArg("hspace", t);
    GroupPassWhole("\\hspace{", NotCloseBrace, "}", DropGroup, Macro("hspace", t), |t|);
  }

  /** `\hspace{t}`, spacing, cleans to nothing. */
  lemma CleanHSpace(cfg: Config, t: string)
    requires PlainArg(t)
    ensures Cleaned(cfg, Macro("hspace", t)) == ""
  {
    MacroAbbrIdle(cfg, "hspace", t);
    MacroBefore(cfg, "hspace", t);
    HSpaceFires(t);
    CascadeIs(cfg);
    CleanedVia(cfg, Macro("hspace", t), 8, "");
  }

  predicate EmphasisName(name: string) {
    name == "emph" || name == "stem" || name == "bf"
  }

  lemma EmphasisNameFacts(name: string)
    requires EmphasisName(name)
    ensures LowerWord(name) && name[0] != 'g' && name[0] != 'h'
  {
  }

  lemma EmphasisHSpaceIdle(name: string, t: string)
    requires EmphasisName(name) && PlainArg(t)
    ensures Rewrite(HSpace, Macro(name, t)) == Macro(name, t)
  {
    EmphasisNameFacts(name);
    MacroSecondCharIdle(HSpace, name, t);
  }

  /** The `\emph`/`\stem`/`\bf` pass picks the alternative for the macro's own name. */
  lemma EmphasisMatch(name: string, t: string)
    requires EmphasisName(name) && PlainArg(t)
    ensures FirstMatch(Emphasis, Macro(name, t)) == Some(Hit(|Macro(name, t)|, t))
  {
    if name == "emph" {
      EmphMatch(t);
    } else if name == "stem" {
      StemMatch(t);
    } else {
      BfMatch(t);
    }
  }

  lemma EmphMatch(t: string)
    requires PlainArg(t)
    ensures FirstMatch(Emphasis, Macro("emph", t)) == Some(Hit(|Macro("emph", t)|, t))
  {
    assert LowerWord("emph");
    assert Emphasis[0] == Group("\\" + "emph" + "{", NotCloseBrace, "}", KeepGroup);
    KeepAltFirst(Emphasis, 0, "emph", t);
  }

  lemma StemMatch(t: string)
    requires PlainArg(t)
    ensures FirstMatch(Emphasis, Macro("stem", t)) == Some(Hit(|Macro("stem", t)|, t))
  {
    MacroSecondChar("stem", t);
    EmphasisOtherMiss(Macro("stem", t), 0);
    assert LowerWord("stem");
    assert Emphasis[1] == Group("\\" + "stem" + "{", NotCloseBrace, "}", KeepGroup);
    KeepAltFirst(Emphasis, 1, "stem", t);
  }

  lemma BfMatch(t: string)
    requires PlainArg(t)
    ensures FirstMatch(Emphasis, Macro("bf", t)) == Some(Hit(|Macro("bf", t)|, t))
  {
    MacroSecondChar("bf", t);
    EmphasisOtherMiss(Macro("bf", t), 0);
    EmphasisOtherMiss(Macro("bf", t), 1);
    assert LowerWord("bf");
    assert Emphasis[2] == Group("\\" + "bf" + "{", NotCloseBrace, "}", KeepGroup);
    KeepAltFirst(Emphasis, 2, "bf", t);
  }

  /** A keep-argument alternative for `name`, preceded only by misses, takes all of the macro. */
  lemma KeepAltFirst(rules: seq<Rule>, j: nat, name: string, t: string)
    requires LowerWord(name) && PlainArg(t)
    requires j < |rules| && rules[j] == Group("\\" + name + "{", NotCloseBrace, "}", KeepGroup)
    requires forall k :: 0 <= k < j ==> MatchRule(rules[k], Macro(name, t)) == None
    ensures FirstMatch(rules, Macro(name, t)) == Some(Hit(|Macro(name, t)|, t))
  {
    EmphasisRuleMatch(name, t);
    FirstMatchAt(rules, Macro(name, t), j, Hit(|Macro(name, t)|, t));
  }

  /** An emphasis alternative does not match a text whose second character differs from its name's first. */
  lemma EmphasisOtherMiss(s: string, j: nat)
    requires j < |Emphasis| && 1 < |s| && s[1] != Key(Emphasis[j])[1]
    ensures MatchRule(Emphasis[j], s) == None
  {
    PrefixAt(s, Key(Emphasis[j]), 1);
  }

  lemma MacroSecondChar(name: string, t: string)
    requires 0 < |name|
    ensures Macro(name, t)[1] == name[0]
  {
  }

  /** The alternative for the macro's own name matches all of it, keeping the argument. */
  lemma EmphasisRuleMatch(name: string, t: string)
    requires LowerWord(name) && PlainArg(t)
    ensures MatchRule(Group("\\" + name + "{", NotCloseBrace, "}", KeepGroup), Macro(name, t))
         == Some(Hit(|Macro(name, t)|, t))
  {
    var s := Macro(name, t);
    var open := "\\" + name + "{";
    MacroArg(name, t);
    assert |open| == |name| + 2 && |s| == |open| + |t| + 1;
    KeepGroupWhole(open, s, t);
  }

  /** A keep-argument group spanning `open`, the argument `t` and the closing brace returns `t`. */
  lemma KeepGroupWhole(open: string, s: string, t: string)
    requires 0 < |open| && 0 < |t| && |s| == |open| + |t| + 1 && StartsWith(s, open)
    requires s[|open|..|open| + |t|] == t && s[|open| + |t|..] == "}"
    requires forall i :: |open| <= i < |open| + |t| ==> InClass(NotCloseBrace, s[i])
    ensures MatchRule(Group(open, NotCloseBrace, "}", KeepGroup), s) == Some(Hit(|s|, t))
  {
    GroupMatchIsOnlyMatch(open, NotCloseBrace, "}", KeepGroup, s, |t|);
  }

  lemma EmphasisFires(name: string, t: string)
    requires EmphasisName(name) && PlainArg(t)
    ensures Rewrite(Emphasis, Macro(name, t)) == t
  {
    EmphasisMatch(name, t);
    RewriteWhole(Emphasis, Macro(name, t), Hit(|Macro(name, t)|, t));
  }

  /** `\emph{t}`, `\stem{t}` and `\bf{t}` clean to their argument. */
  lemma CleanEmphasis(cfg: Config, name: string, t: string)
    requires EmphasisName(name) && PlainArg(t)
    ensures Cleaned(cfg, Macro(name, t)) == t
  {
    EmphasisNameFacts(name);
    MacroAbbrIdle(cfg, name, t);
    MacroBefore(cfg, name, t);
    EmphasisHSpaceIdle(name, t);
    EmphasisFires(name, t);
    CascadeIs(cfg);
    CleanedVia(cfg, Macro(name, t), 9, t);
  }

  // The literal macros `\(ø\)`, `\gscACC` and `\redp{}`

  /** Where there is no `{`, only the passes without `{` in their keys can fire. */
  lemma NoBraceIdle(cfg: Config, s: string)
    requires '{' !in s
    ensures Rewrite(UpperAbbrs(cfg), s) == s && Rewrite(LowerAbbrs(cfg), s) == s
    ensures Rewrite(ArgAbbrs(cfg), s) == s && Rewrite(CapAbbrs(cfg), s) == s
    ensures Rewrite(UpperRun, s) == s && Rewrite(GlossArg, s) == s
    ensures Rewrite(HSpace, s) == s && Rewrite(Emphasis, s) == s
  {
    AbbrKeys(cfg);
    FixedKeys(cfg);
    KeyCharAbsent(UpperAbbrs(cfg), '{', s);
    KeyCharAbsent(LowerAbbrs(cfg), '{', s);
    KeyCharAbsent(ArgAbbrs(cfg), '{', s);
    KeyCharAbsent(CapAbbrs(cfg), '{', s);
    KeyCharAbsent(UpperRun, '{', s);
    KeyCharAbsent(GlossArg, '{', s);
    KeyCharAbsent(HSpace, '{', s);
    KeyCharAbsent(Emphasis, '{', s);
  }

  lemma InlineEmptyIdle(cfg: Config)
    ensures Rewrite(GlossSuffix, "\\(ø\\)") == "\\(ø\\)" && Rewrite(EmptySet(cfg), "\\(ø\\)") == "\\(ø\\)"
  {
    FixedKeys(cfg);
    assert 'g' !in "\\(ø\\)" && '$' !in "\\(ø\\)";
    KeyCharAbsent(GlossSuffix, 'g', "\\(ø\\)");
    KeyCharAbsent(EmptySet(cfg), '$', "\\(ø\\)");
  }

  /** `\(ø\)`, the inline-math empty element, cleans to the non-overt element marker. */
  lemma CleanInlineEmpty(cfg: Config)
    requires WellFormedConfig(cfg)
    ensures Cleaned(cfg, "\\(ø\\)") == cfg.nonOvert
  {
    assert '{' !in "\\(ø\\)";
    NoBraceIdle(cfg, "\\(ø\\)");
    InlineEmptyIdle(cfg);
    LitPassWhole("\\(ø\\)", cfg.nonOvert);
    CascadeIs(cfg);
    CleanedVia(cfg, "\\(ø\\)", 10, cfg.nonOvert);
  }

  lemma GscAccChars()
    ensures '{' !in "\\gscACC" && 'l' !in "\\gscACC" && '$' !in "\\gscACC" && '(' !in "\\gscACC"
    ensures MarkupFree("ACC")
  {
  }

  lemma GscAccIdle(cfg: Config)
    ensures var s := "\\gscACC";
            Rewrite(GlossSuffix, s) == s && Rewrite(EmptySet(cfg), s) == s &&
            Rewrite(InlineEmpty(cfg), s) == s
  {
    var s := "\\gscACC";
    FixedKeys(cfg);
    GscAccChars();
    KeyCharAbsent(GlossSuffix, 'l', s);
    KeyCharAbsent(EmptySet(cfg), '$', s);
    KeyCharAbsent(InlineEmpty(cfg), '(', s);
  }

  /** `\gscACC` cleans to `ACC`. */
  lemma CleanGscAcc(cfg: Config)
    ensures Cleaned(cfg, "\\gscACC") == "ACC"
  {
    GscAccChars();
    NoBraceIdle(cfg, "\\gscACC");
    GscAccIdle(cfg);
    LitPassWhole("\\gscACC", "ACC");
    CascadeIs(cfg);
    CleanedVia(cfg, "\\gscACC", 11, "ACC");
  }

  lemma RedpChars()
    ensures var s := "\\redp{}";
            NoPair(s, '{', '\\') && 'g' !in s && '$' !in s && 'h' !in s && '(' !in s &&
            s[5..] == "{" + "}" && NameText("redp") && s == "\\" + "redp" + "{}" && MarkupFree("~")
  {
  }

  lemma RedpAbbrIdle(cfg: Config)
    requires WellFormedConfig(cfg) && "redp" !in Lowered(cfg.abbrs)
    ensures var s := "\\redp{}";
            Rewrite(UpperAbbrs(cfg), s) == s && Rewrite(LowerAbbrs(cfg), s) == s &&
            Rewrite(ArgAbbrs(cfg), s) == s && Rewrite(CapAbbrs(cfg), s) == s
  {
    var s := "\\redp{}";
    RedpChars();
    BraceTableIdle(cfg.abbrs, false, s);
    BraceTableIdle(Lowered(cfg.abbrs), true, s);
    BraceTableIdle(Capitalized(cfg.abbrs), true, s);
    ArgAbbrStep(cfg, "redp");
  }

  /** The character facts about `\redp{}` that keep every pass but the last off it. */
  predicate RedpShape(s: string) {
    |s| == 7 && s[0] == '\\' && s[1] == 'r' && s[5..] == "{" + "}" &&
    (forall i :: 0 < i < |s| ==> s[i] != '\\') &&
    (forall i :: 0 <= i < |s| && i != 5 ==> s[i] != '{') &&
    'g' !in s && '$' !in s && 'h' !in s && '(' !in s
  }

  lemma RedpHasShape()
    ensures RedpShape("\\redp{}")
  {
  }

  lemma RedpFixedFrom(cfg: Config, s: string)
    requires RedpShape(s)
    ensures Rewrite(UpperRun, s) == s && Rewrite(GlossArg, s) == s && Rewrite(GlossSuffix, s) == s &&
            Rewrite(EmptySet(cfg), s) == s && Rewrite(HSpace, s) == s
  {
    RedpUpperRunFrom(s);
    RedpGlossArgFrom(s);
    RedpGlossSuffixFrom(s);
    RedpEmptySetFrom(cfg, s);
    RedpHSpaceFrom(s);
  }

  lemma RedpUpperRunFrom(s: string)
    requires RedpShape(s)
    ensures Rewrite(UpperRun, s) == s
  {
    UpperRunEmpty("}");
    OnePassIdleAt(UpperRun, '{', s, 5);
  }

  lemma RedpGlossArgFrom(s: string)
    requires RedpShape(s)
    ensures Rewrite(GlossArg, s) == s
  {
    OneRuleAbsent(GlossArg, 'g', 1, s);
  }

  lemma RedpGlossSuffixFrom(s: string)
    requires RedpShape(s)
    ensures Rewrite(GlossSuffix, s) == s
  {
    OneRuleAbsent(GlossSuffix, 'g', 1, s);
  }

  lemma RedpEmptySetFrom(cfg: Config, s: string)
    requires RedpShape(s)
    ensures Rewrite(EmptySet(cfg), s) == s
  {
    OneRuleAbsent(EmptySet(cfg), '$', 0, s);
  }

  lemma RedpHSpaceFrom(s: string)
    requires RedpShape(s)
    ensures Rewrite(HSpace, s) == s
  {
    OneRuleAbsent(HSpace, 'h', 1, s);
  }

  lemma RedpLateFrom(cfg: Config, s: string)
    requires RedpShape(s)
    ensures Rewrite(Emphasis, s) == s && Rewrite(InlineEmpty(cfg), s) == s && Rewrite(GscAcc, s) == s
  {
    RedpEmphasisFrom(s);
    RedpInlineEmptyFrom(cfg, s);
    RedpGscAccFrom(s);
  }

  lemma RedpEmphasisFrom(s: string)
    requires RedpShape(s)
    ensures Rewrite(Emphasis, s) == s
  {
    EmphasisOtherMiss(s, 0);
    EmphasisOtherMiss(s, 1);
    EmphasisOtherMiss(s, 2);
    EmphasisIdleAtHead(s);
  }

  /** The emphasis pass leaves alone a text whose only backslash, at its head, starts none of its macros. */
  lemma EmphasisIdleAtHead(s: string)
    requires forall j :: 0 <= j < |Emphasis| ==> MatchRule(Emphasis[j], s) == None
    requires forall i :: 0 < i < |s| ==> s[i] != '\\'
    ensures Rewrite(Emphasis, s) == s
  {
    EmphasisHeads();
    assert s[0..] == s;
    assert Inactive(Emphasis, s[0..]);
    IdleBut(Emphasis, '\\', s, 0);
  }

  lemma EmphasisHeads()
    ensures HeadsAre(Emphasis, '\\')
  {
    assert Key(Emphasis[0])[0] == '\\' && Key(Emphasis[1])[0] == '\\' && Key(Emphasis[2])[0] == '\\';
  }

  lemma RedpInlineEmptyFrom(cfg: Config, s: string)
    requires RedpShape(s)
    ensures Rewrite(InlineEmpty(cfg), s) == s
  {
    OneRuleAbsent(InlineEmpty(cfg), '(', 1, s);
  }

  lemma RedpGscAccFrom(s: string)
    requires RedpShape(s)
    ensures Rewrite(GscAcc, s) == s
  {
    OneRuleAbsent(GscAcc, 'g', 1, s);
  }

  lemma RedpFixedIdle(cfg: Config)
    ensures var s := "\\redp{}";
            Rewrite(UpperRun, s) == s && Rewrite(GlossArg, s) == s && Rewrite(GlossSuffix, s) == s &&
            Rewrite(EmptySet(cfg), s) == s && Rewrite(HSpace, s) == s
  {
    RedpHasShape();
    RedpFixedFrom(cfg, "\\redp{}");
  }

  lemma RedpLateIdle(cfg: Config)
    ensures var s := "\\redp{}";
            Rewrite(Emphasis, s) == s && Rewrite(InlineEmpty(cfg), s) == s && Rewrite(GscAcc, s) == s
  {
    RedpHasShape();
    RedpLateFrom(cfg, "\\redp{}");
  }

  /**
   * `\redp{}`, the reduplication marker, cleans to `~`, provided no key
   * lower-cases to `redp` (the `\name{}` pass, which runs earlier, would
   * claim it).
   */
  lemma CleanRedp(cfg: Config)
    requires WellFormedConfig(cfg) && "redp" !in Lowered(cfg.abbrs)
    ensures Cleaned(cfg, "\\redp{}") == "~"
  {
    RedpChars();
    RedpAbbrIdle(cfg);
    RedpFixedIdle(cfg);
    RedpLateIdle(cfg);
    LitPassWhole("\\redp{}", "~");
    CascadeIs(cfg);
    CleanedVia(cfg, "\\redp{}", 12, "~");
  }

  // ---------------------------------------------------------------------
  // `filtered` on whole token lists

  /** The tab escape changes nothing where no backslash is followed by `t`. */
  lemma TabEscapeIdle(k: string)
    requires NoPair(k, '\\', 't')
    ensures TabEscape(k) == k
  {
    var rules := [Lit("\\t", "__t")];
    forall i | 0 <= i < |k| ensures Inactive(rules, k[i..]) {
      forall j | 0 <= j < |rules| ensures MatchRule(rules[j], k[i..]) == None {
        PrefixAt(k[i..], "\\t", 0);
        PrefixAt(k[i..], "\\t", 1);
      }
    }
    RewriteUnchanged(rules, k);
  }

  /** A token without markup comes out of `filtered` as it went in. */
  lemma CleanedPlainToken(cfg: Config, w: string)
    requires MarkupFree(w)
    ensures Cleaned(cfg, TabEscape(w)) == w
  {
    assert NoPair(w, '\\', 't');
    TabEscapeIdle(w);
    CleanedMarkupFree(cfg, w);
  }

  /** Placeholder tokens vanish and ordinary words survive unchanged, whatever the counter. */
  lemma {:induction false} FilteredPlainWordsFrom(cfg: Config, l: seq<string>, count: map<string, nat>)
    requires forall i :: 0 <= i < |l| ==> Placeholder(l[i]) || MarkupFree(l[i])
    ensures Filtered(cfg, l, count).0 == Kept(l)
  {
    if l != [] {
      assert forall i :: 0 <= i < |l[1..]| ==> l[1..][i] == l[i + 1];
      if Placeholder(l[0]) {
        FilteredPlainWordsFrom(cfg, l[1..], count);
      } else {
        var c := Clean(cfg, TabEscape(l[0]), count);
        FilteredPlainWordsFrom(cfg, l[1..], c.1);
        CleanedPlainToken(cfg, l[0]);
      }
    }
  }

  /** Placeholder tokens vanish and ordinary words survive unchanged. */
  lemma FilteredPlainWords(cfg: Config, l: seq<string>)
    requires forall i :: 0 <= i < |l| ==> Placeholder(l[i]) || MarkupFree(l[i])
    ensures CleanedTokens(cfg, l) == Kept(l)
  {
    FilteredPlainWordsFrom(cfg, l, map[]);
  }

  /** A list that keeps one token comes out of `filtered` as that token, cleaned. */
  lemma FilteredSingle(cfg: Config, l: seq<string>, w: string)
    requires Kept(l) == [w]
    ensures CleanedTokens(cfg, l) == [Cleaned(cfg, TabEscape(w))]
  {
    FilteredCleansKept(cfg, l, map[]);
  }

  lemma KeptSpacingOnly()
    ensures Kept(["{}", "", "--", "\\hspace{5pt}"]) == ["\\hspace{5pt}"]
  {
    var l := ["{}", "", "--", "\\hspace{5pt}"];
    assert l[1..] == ["", "--", "\\hspace{5pt}"];
    assert l[1..][1..] == ["--", "\\hspace{5pt}"];
    assert l[1..][1..][1..] == ["\\hspace{5pt}"];
  }

  lemma CleanedSpacing(cfg: Config)
    ensures Cleaned(cfg, TabEscape("\\hspace{5pt}")) == ""
  {
    assert "\\hspace{5pt}" == Macro("hspace", "5pt");
    assert PlainArg("5pt") by {
      assert !InClass(UpperLetter, "5pt"[0]);
    }
    CleanHSpaceToken(cfg, "5pt");
  }

  /** A spacing macro with a plain argument is removed, tab escape included. */
  lemma CleanHSpaceToken(cfg: Config, t: string)
    requires PlainArg(t)
    ensures Cleaned(cfg, TabEscape(Macro("hspace", t))) == ""
  {
    var w := Macro("hspace", t);
    MacroChars("hspace", t);
    assert NoPair(w, '\\', 't') by {
      assert forall i :: 0 <= i < |t| ==> t[i] != '\\';
    }
    TabEscapeIdle(w);
    CleanHSpace(cfg, t);
  }

  /** A spacing macro among placeholders leaves one empty token behind. */
  lemma FilteredSpacingOnly(cfg: Config)
    ensures CleanedTokens(cfg, ["{}", "", "--", "\\hspace{5pt}"]) == [""]
  {
    KeptSpacingOnly();
    FilteredSingle(cfg, ["{}", "", "--", "\\hspace{5pt}"], "\\hspace{5pt}");
    CleanedSpacing(cfg);
  }
}
