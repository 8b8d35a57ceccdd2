/**
 * The record loop of `cmd_makecldf`: every extracted example record adds
 * to the glottocode counter, creates the language row on the first record
 * of its glottocode, has its word and gloss lists cleaned (feeding the
 * TeX counter), and, when both lists survive and its ID is new, becomes
 * one example row whose shape depends on its LGR conformance level.
 *
 * The specification is a fold (`Run`) of one record step (`Step`) over the
 * records; the method `MakeCldf` is the loop itself, proved to compute that
 * fold; the lemmas state what the fold guarantees.
 */
module Assembly {
  import opened Wrappers
  import opened TexRewrite
  import opened TexClean

  // ---------------------------------------------------------------------
  // Records and rows

  /** One extracted example, as far as the loop reads it. */
  datatype Record = Record(
    id: string,                    // `ID`
    bookId: nat,                   // `bookID`, a JSON number
    glottocode: string,            // `language_glottocode`
    languageName: Option<string>,  // `language_name`, absent when null
    srcWords: seq<string>,         // `srcwordsbare`
    glossWords: seq<string>,       // `imtwordsbare`
    translation: string)           // `trs`

  datatype LanguageRow = LanguageRow(id: string, name: Option<string>)

  datatype ExampleRow = ExampleRow(
    id: string,
    languageId: string,
    primaryText: string,
    analyzedWord: seq<string>,
    gloss: seq<string>,
    translatedText: string,
    level: nat)

  /** What the strict validity check does: succeed, fail, or raise `AssertionError`. */
  datatype Outcome = Passed | Failed | Raised

  /** The two validity checks of the interlinear-gloss library, on phrase and gloss text. */
  datatype Checks = Checks(valid: (string, string) -> bool, strict: (string, string) -> Outcome)

  /** `ex['language_name'] or None`: an empty name is no name. */
  function LanguageName(r: Record): (n: Option<string>)
    ensures n.Some? <==> r.languageName.Some? && r.languageName.value != ""
    ensures n.Some? ==> n == r.languageName
  {
    if r.languageName == Some("") then None else r.languageName
  }

  /** `' '.join(ws)`. */
  function Join(ws: seq<string>): string {
    if |ws| == 0 then "" else if |ws| == 1 then ws[0] else ws[0] + " " + Join(ws[1..])
  }

  /** `s.split(' ')`: the pieces between single spaces, empty pieces included. */
  function Split(s: string): (r: seq<string>)
    ensures |r| > 0
    decreases |s|
  {
    if s == "" then [""]
    else if s[0] == ' ' then [""] + Split(s[1..])
    else var rest := Split(s[1..]); [[s[0]] + rest[0]] + rest[1..]
  }

  predicate SpaceFree(w: string) {
    ' ' !in w
  }

  lemma {:induction false} SplitWord(w: string, rest: string)
    requires SpaceFree(w)
    ensures Split(w + rest) == [w + Split(rest)[0]] + Split(rest)[1..]
    decreases |w|
  {
    if w != "" {
      assert (w + rest)[1..] == w[1..] + rest;
      assert w[0] in w;
      SplitWord(w[1..], rest);
      assert [w[0]] + (w[1..] + Split(rest)[0]) == w + Split(rest)[0];
    } else {
      assert w + rest == rest;
      assert w + Split(rest)[0] == Split(rest)[0];
      assert Split(rest) == [Split(rest)[0]] + Split(rest)[1..];
    }
  }

  /** Splitting the joined text at spaces gives the words back, as long as no word contains a space. */
  lemma {:induction false} SplitJoin(ws: seq<string>)
    requires |ws| > 0 && forall i :: 0 <= i < |ws| ==> SpaceFree(ws[i])
    ensures Split(Join(ws)) == ws
  {
    if |ws| == 1 {
      SplitWord(ws[0], "");
      assert Split("") == [""];
      assert ws[0] + "" == ws[0];
      assert Join(ws) == ws[0];
      assert [ws[0] + Split("")[0]] + Split("")[1..] == [ws[0]];
    } else {
      assert forall i :: 0 <= i < |ws[1..]| ==> ws[1..][i] == ws[i + 1];
      SplitJoin(ws[1..]);
      var rest := " " + Join(ws[1..]);
      SplitWord(ws[0], rest);
      assert rest[0] == ' ' && rest[1..] == Join(ws[1..]);
      assert Split(rest) == [""] + ws[1..];
      assert Split(rest)[0] == "" && Split(rest)[1..] == ws[1..];
      assert ws[0] + Split(rest)[0] == ws[0];
      assert Join(ws) == ws[0] + rest;
      assert ws == [ws[0]] + ws[1..];
    }
  }

  /** The decimal digits `format` writes for a number. */
  function Decimal(n: nat): (d: string)
    ensures 0 < |d| && forall i :: 0 <= i < |d| ==> '0' <= d[i] <= '9'
  {
    var digit := "0123456789"[n % 10];
    if n < 10 then [digit] else Decimal(n / 10) + [digit]
  }

  /** The number written in decimal reads back as the same number. */
  function Value(d: string): int
    decreases |d|
  {
    if d == "" then 0 else 10 * Value(d[..|d| - 1]) + ((d[|d| - 1] as int) - ('0' as int))
  }

  lemma {:induction false} DecimalValue(n: nat)
    ensures Value(Decimal(n)) == n
  {
    var d := Decimal(n);
    DigitValue(n % 10);
    if n >= 10 {
      DecimalValue(n / 10);
      assert d[..|d| - 1] == Decimal(n / 10);
      assert n == 10 * (n / 10) + n % 10;
    }
  }

  lemma DigitValue(k: nat)
    requires k < 10
    ensures ("0123456789"[k] as int) - ('0' as int) == k
  {
    if k < 5 {
      assert k == 0 || k == 1 || k == 2 || k == 3 || k == 4;
    } else {
      assert k == 5 || k == 6 || k == 7 || k == 8 || k == 9;
    }
  }

  /** The pair before replacement: `'{}-{}'.format(bookID, ID)`. */
  function RawId(r: Record): string {
    Decimal(r.bookId) + "-" + r.id
  }

  /** The row ID: the raw pair with every `.` turned into `_`. */
  function RowId(r: Record): string {
    var s := RawId(r);
    seq(|s|, i requires 0 <= i < |s| => if s[i] == '.' then '_' else s[i])
  }

  /** The row ID is what `str.replace('.', '_')` makes of the raw pair. */
  lemma RowIdIsReplace(r: Record)
    ensures RowId(r) == Rewrite([Lit(".", "_")], RawId(r))
  {
    ReplaceCharIsMap(RawId(r), '.', '_');
  }

  /**
   * The row ID starts with the book number's digits and a dash, then holds
   * the example ID with each `.` turned into `_`; no `.` is left.
   */
  lemma RowIdChars(r: Record)
    ensures var b := Decimal(r.bookId);
            |RowId(r)| == |b| + 1 + |r.id| && RowId(r)[..|b|] == b && RowId(r)[|b|] == '-' &&
            forall i :: 0 <= i < |r.id| ==> RowId(r)[|b| + 1 + i] == if r.id[i] == '.' then '_' else r.id[i]
    ensures '.' !in RowId(r)
  {
    var b := Decimal(r.bookId);
    var s := RawId(r);
    assert forall i :: 0 <= i < |r.id| ==> s[|b| + 1 + i] == r.id[i];
    assert forall i :: 0 <= i < |b| ==> s[i] == b[i] && b[i] != '.';
  }

  /** The LGR conformance level: 2 when the strict check passes, else 1 when the lax one does, else 0. */
  function Level(valid: bool, strict: Outcome): nat {
    if strict == Passed then 2 else if valid then 1 else 0
  }

  lemma LevelCases(valid: bool, strict: Outcome)
    ensures Level(valid, strict) <= 2
    ensures Level(valid, strict) == 2 <==> strict == Passed
    ensures Level(valid, strict) == 1 <==> valid && strict != Passed
    ensures Level(valid, strict) == 0 <==> !valid && strict != Passed
  {
  }

  /** The language row a record would create. */
  function LanguageOf(r: Record): LanguageRow {
    LanguageRow(r.glottocode, LanguageName(r))
  }

  // ---------------------------------------------------------------------
  // Cleaning, done once per record

  /** A record together with its cleaned word and gloss lists. */
  datatype Prepared = Prepared(rec: Record, words: seq<string>, glosses: seq<string>)

  /** What `filtered` makes of a record's word and gloss lists. */
  function Prepare(cfg: Config, r: Record): Prepared {
    Prepared(r, CleanedTokens(cfg, r.srcWords), CleanedTokens(cfg, r.glossWords))
  }

  /** The cleaned lists hold, in order, the cleaned tab-escaped tokens the placeholder filter keeps. */
  lemma PrepareCleans(cfg: Config, r: Record)
    ensures var p := Prepare(cfg, r);
            p.rec == r &&
            |p.words| == |Kept(r.srcWords)| && |p.glosses| == |Kept(r.glossWords)| &&
            (forall i :: 0 <= i < |p.words| ==> p.words[i] == Cleaned(cfg, TabEscape(Kept(r.srcWords)[i]))) &&
            (forall i :: 0 <= i < |p.glosses| ==> p.glosses[i] == Cleaned(cfg, TabEscape(Kept(r.glossWords)[i])))
  {
    FilteredCleansKept(cfg, r.srcWords, map[]);
    FilteredCleansKept(cfg, r.glossWords, map[]);
  }

  function PrepareAll(cfg: Config, rs: seq<Record>): (ps: seq<Prepared>)
    ensures |ps| == |rs|
    ensures forall i :: 0 <= i < |rs| ==> ps[i] == Prepare(cfg, rs[i])
    decreases |rs|
  {
    if rs == [] then []
    else
      var front := PrepareAll(cfg, rs[..|rs| - 1]);
      PrepareSnoc(cfg, rs, front, Prepare(cfg, rs[|rs| - 1]));
      front + [Prepare(cfg, rs[|rs| - 1])]
  }

  lemma PrepareSnoc(cfg: Config, rs: seq<Record>, front: seq<Prepared>, x: Prepared)
    requires 0 < |rs| && |front| == |rs| - 1
    requires forall i :: 0 <= i < |front| ==> front[i] == Prepare(cfg, rs[..|rs| - 1][i])
    requires x == Prepare(cfg, rs[|rs| - 1])
    ensures forall i :: 0 <= i < |rs| ==> (front + [x])[i] == Prepare(cfg, rs[i])
  {
    SnocMapped(r => Prepare(cfg, r), rs, front, x);
  }

  /** Appending the image of the last element keeps a list the element-wise image of `rs`. */
  lemma SnocMapped<A, B>(f: A -> B, rs: seq<A>, front: seq<B>, x: B)
    requires 0 < |rs| && |front| == |rs| - 1
    requires forall i :: 0 <= i < |front| ==> front[i] == f(rs[..|rs| - 1][i])
    requires x == f(rs[|rs| - 1])
    ensures forall i :: 0 <= i < |rs| ==> (front + [x])[i] == f(rs[i])
  {
    forall i | 0 <= i < |rs| ensures (front + [x])[i] == f(rs[i]) {
      if i < |front| {
        assert rs[..|rs| - 1][i] == rs[i];
      }
    }
  }

  // ---------------------------------------------------------------------
  // One row

  /** The row built from two non-empty cleaned lists. */
  function MakeRow(checks: Checks, r: Record, obj: seq<string>, gloss: seq<string>): ExampleRow {
    var phrase := Join(obj);
    var level := Level(checks.valid(phrase, Join(gloss)), checks.strict(phrase, Join(gloss)));
    ExampleRow(RowId(r), r.glottocode, phrase,
               if level > 0 then obj else [], if level > 0 then gloss else [],
               r.translation, level)
  }

  /** Both cleaned lists are non-empty, so the record yields a row. */
  predicate Emittable(p: Prepared) {
    p.words != [] && p.glosses != []
  }

  /** The row a record would produce, or `None` when its cleaned words or glosses are empty. */
  function Row(checks: Checks, p: Prepared): (m: Option<ExampleRow>)
    ensures m.Some? <==> Emittable(p)
    ensures m.Some? ==> m.value.id == RowId(p.rec)
  {
    if p.words == [] || p.glosses == [] then None
    else Some(MakeRow(checks, p.rec, p.words, p.glosses))
  }

  /** The shape of every row: level, ID, language, text, and lists present only from level 1. */
  lemma RowShape(checks: Checks, p: Prepared)
    requires Row(checks, p).Some?
    ensures var e := Row(checks, p).value;
            p.words != [] && p.glosses != [] &&
            e.level <= 2 && e.id == RowId(p.rec) && e.languageId == p.rec.glottocode &&
            e.primaryText == Join(p.words) && e.translatedText == p.rec.translation &&
            (e.level > 0 ==> e.analyzedWord == p.words && e.gloss == p.glosses) &&
            (e.level == 0 ==> e.analyzedWord == [] && e.gloss == [])
  {
  }

  // ---------------------------------------------------------------------
  // The loop's state and one step of it

  datatype State = State(
    languages: seq<LanguageRow>,
    examples: seq<ExampleRow>,
    tex: map<string, nat>,   // the TeX counter `clean` feeds
    lgs: map<string, nat>,   // the glottocode counter
    seen: set<string>)       // the example IDs emitted so far

  const Init := State([], [], map[], map[], {})

  /** One iteration of the record loop. */
  function Step(checks: Checks, st: State, p: Prepared): State {
    var r := p.rec;
    var languages := if r.glottocode in st.lgs then st.languages else st.languages + [LanguageOf(r)];
    var lgs := Tick(st.lgs, r.glottocode);
    var tex := Tally(Tally(st.tex, p.words), p.glosses);
    if p.words == [] || p.glosses == [] then State(languages, st.examples, tex, lgs, st.seen)
    else
      var id := RowId(r);
      if id in st.seen then State(languages, st.examples, tex, lgs, st.seen)
      else State(languages, st.examples + [MakeRow(checks, r, p.words, p.glosses)], tex, lgs, st.seen + {id})
  }

  /** The glottocode counter with one more record of language `g`. */
  function Tick(lgs: map<string, nat>, g: string): (r: map<string, nat>)
    ensures g in r && r[g] == Count(lgs, g) + 1
    ensures forall k :: k != g ==> Count(r, k) == Count(lgs, k)
  {
    lgs[g := Count(lgs, g) + 1]
  }

  /** The loop over `ps`, from the empty state. */
  function Run(checks: Checks, ps: seq<Prepared>): State
    decreases |ps|
  {
    if ps == [] then Init else Step(checks, Run(checks, ps[..|ps| - 1]), ps[|ps| - 1])
  }

  lemma RunLast(checks: Checks, ps: seq<Prepared>)
    requires ps != []
    ensures Run(checks, ps) == Step(checks, Run(checks, ps[..|ps| - 1]), ps[|ps| - 1])
  {
  }

  /** What a step does to the example rows and the seen set, in terms of the record's own row. */
  lemma StepEmits(checks: Checks, st: State, p: Prepared)
    ensures var st' := Step(checks, st, p);
            if Emittable(p) && RowId(p.rec) !in st.seen then
              st'.examples == st.examples + [Row(checks, p).value] && st'.seen == st.seen + {RowId(p.rec)}
            else
              st'.examples == st.examples && st'.seen == st.seen
  {
  }

  /** A step counts the record's cleaned words, then its cleaned glosses. */
  lemma StepTexPair(checks: Checks, st: State, p: Prepared)
    ensures Step(checks, st, p).tex == Tally(Tally(st.tex, p.words), p.glosses)
  {
  }

  /** What a step does to the language rows and the glottocode counter. */
  lemma StepLanguages(checks: Checks, st: State, p: Prepared)
    ensures var st' := Step(checks, st, p);
            st'.languages == (if p.rec.glottocode in st.lgs then st.languages
                              else st.languages + [LanguageOf(p.rec)]) &&
            st'.lgs == Tick(st.lgs, p.rec.glottocode)
  {
  }

  lemma {:induction false} TallyAppend(count: map<string, nat>, a: seq<string>, b: seq<string>)
    ensures Tally(count, a + b) == Tally(Tally(count, a), b)
    decreases a
  {
    if a != [] {
      assert (a + b)[0] == a[0] && (a + b)[1..] == a[1..] + b;
      var t := a[0];
      TallyAppend(Bump(count, t), a[1..], b);
    } else {
      assert a + b == b;
    }
  }

  /** What a step does to the TeX counter: it counts the record's word tokens, then its gloss tokens. */
  lemma StepTex(checks: Checks, st: State, p: Prepared)
    ensures Step(checks, st, p).tex == Tally(st.tex, p.words + p.glosses)
  {
    TallyAppend(st.tex, p.words, p.glosses);
  }

  // ---------------------------------------------------------------------
  // What the loop guarantees

  function Ids(es: seq<ExampleRow>): set<string> {
    set e | e in es :: e.id
  }

  /** The seen set is exactly the set of emitted IDs, and no ID is emitted twice. */
  lemma {:induction false} SeenIsEmitted(checks: Checks, ps: seq<Prepared>)
    ensures Run(checks, ps).seen == Ids(Run(checks, ps).examples)
    ensures var es := Run(checks, ps).examples;
            forall i, j :: 0 <= i < j < |es| ==> es[i].id != es[j].id
    decreases |ps|
  {
    if ps != [] {
      var front := ps[..|ps| - 1];
      SeenIsEmitted(checks, front);
      StepEmits(checks, Run(checks, front), ps[|ps| - 1]);
      var es := Run(checks, front).examples;
      var es' := Run(checks, ps).examples;
      if es' != es {
        forall i | 0 <= i < |es| ensures es[i] in es { }
        assert Ids(es') == Ids(es) + {es'[|es|].id} by {
          assert forall e :: e in es' <==> e in es || e == es'[|es|];
        }
      }
    }
  }

  /** Rows, seen IDs and language rows only accumulate: an earlier state's are a prefix of a later one's. */
  lemma {:induction false} RunGrows(checks: Checks, ps: seq<Prepared>, k: nat)
    requires k <= |ps|
    ensures Run(checks, ps[..k]).examples <= Run(checks, ps).examples
    ensures Run(checks, ps[..k]).seen <= Run(checks, ps).seen
    ensures Run(checks, ps[..k]).languages <= Run(checks, ps).languages
    decreases |ps|
  {
    if k < |ps| {
      var front := ps[..|ps| - 1];
      assert front[..k] == ps[..k];
      RunGrows(checks, front, k);
      StepEmits(checks, Run(checks, front), ps[|ps| - 1]);
      StepLanguages(checks, Run(checks, front), ps[|ps| - 1]);
    } else {
      assert ps[..k] == ps;
    }
  }

  /** Record `k` yields a row, and no earlier record yields one with the same ID. */
  predicate FirstOfId(ps: seq<Prepared>, k: nat)
    requires k < |ps|
  {
    Emittable(ps[k]) &&
    forall q :: 0 <= q < k && Emittable(ps[q]) ==> RowId(ps[q].rec) != RowId(ps[k].rec)
  }

  /** Some record among `ps` yields a row with ID `id`. */
  predicate HasRowId(ps: seq<Prepared>, id: string) {
    exists q :: 0 <= q < |ps| && Emittable(ps[q]) && RowId(ps[q].rec) == id
  }

  lemma HasRowIdLast(ps: seq<Prepared>, id: string)
    requires ps != []
    ensures HasRowId(ps, id) <==>
              HasRowId(ps[..|ps| - 1], id) || (Emittable(ps[|ps| - 1]) && RowId(ps[|ps| - 1].rec) == id)
  {
    var front := ps[..|ps| - 1];
    if HasRowId(ps, id) {
      var q :| 0 <= q < |ps| && Emittable(ps[q]) && RowId(ps[q].rec) == id;
      if q < |front| {
        assert front[q] == ps[q];
      }
    }
    if HasRowId(front, id) {
      var q :| 0 <= q < |front| && Emittable(front[q]) && RowId(front[q].rec) == id;
      assert front[q] == ps[q];
    }
  }

  /** The seen set holds exactly the IDs of the rows of all records so far, duplicates included. */
  lemma {:induction false} SeenIsRowIds(checks: Checks, ps: seq<Prepared>, id: string)
    ensures id in Run(checks, ps).seen <==> HasRowId(ps, id)
    decreases |ps|
  {
    if ps != [] {
      var front := ps[..|ps| - 1];
      SeenIsRowIds(checks, front, id);
      StepEmits(checks, Run(checks, front), ps[|ps| - 1]);
      HasRowIdLast(ps, id);
    }
  }

  /** Every record that yields a row has its ID in the seen set afterwards. */
  lemma RowsAreSeen(checks: Checks, ps: seq<Prepared>, k: nat)
    requires k < |ps| && Emittable(ps[k])
    ensures RowId(ps[k].rec) in Run(checks, ps).seen
  {
    SeenIsRowIds(checks, ps, RowId(ps[k].rec));
  }

  lemma FirstOfIdFront(ps: seq<Prepared>, k: nat)
    requires k < |ps| - 1
    ensures FirstOfId(ps[..|ps| - 1], k) <==> FirstOfId(ps, k)
  {
    var front := ps[..|ps| - 1];
    assert forall q :: 0 <= q <= k ==> front[q] == ps[q];
  }

  /** The last record is first with its ID exactly when it yields a row whose ID was not seen before. */
  lemma FirstOfIdLast(checks: Checks, ps: seq<Prepared>)
    requires ps != []
    ensures FirstOfId(ps, |ps| - 1) <==>
              Emittable(ps[|ps| - 1]) && RowId(ps[|ps| - 1].rec) !in Run(checks, ps[..|ps| - 1]).seen
  {
    var n := |ps| - 1;
    var front := ps[..n];
    var id := RowId(ps[n].rec);
    SeenIsRowIds(checks, front, id);
    if HasRowId(front, id) {
      var q :| 0 <= q < n && Emittable(front[q]) && RowId(front[q].rec) == id;
      assert front[q] == ps[q];
    }
    if !FirstOfId(ps, n) && Emittable(ps[n]) {
      var q :| 0 <= q < n && Emittable(ps[q]) && RowId(ps[q].rec) == id;
      assert front[q] == ps[q];
    }
  }

  /** First occurrence wins, one way: the row of every record first with its ID is emitted. */
  lemma {:induction false} FirstIsEmitted(checks: Checks, ps: seq<Prepared>, k: nat)
    requires k < |ps| && FirstOfId(ps, k)
    ensures Row(checks, ps[k]).value in Run(checks, ps).examples
    decreases |ps|
  {
    var n := |ps| - 1;
    var front := ps[..n];
    if k < n {
      FirstOfIdFront(ps, k);
      assert front[k] == ps[k];
      FirstIsEmitted(checks, front, k);
      RunLast(checks, ps);
      StepKeeps(checks, Run(checks, front), ps[n], Row(checks, ps[k]).value);
    } else {
      LastIsEmitted(checks, ps);
    }
  }

  /** A step never takes back a row. */
  lemma StepKeeps(checks: Checks, st: State, p: Prepared, e: ExampleRow)
    requires e in st.examples
    ensures e in Step(checks, st, p).examples
  {
    StepEmits(checks, st, p);
  }

  lemma LastIsEmitted(checks: Checks, ps: seq<Prepared>)
    requires ps != [] && FirstOfId(ps, |ps| - 1)
    ensures Row(checks, ps[|ps| - 1]).value in Run(checks, ps).examples
  {
    FirstOfIdLast(checks, ps);
    RunLast(checks, ps);
    StepEmits(checks, Run(checks, ps[..|ps| - 1]), ps[|ps| - 1]);
  }

  /** First occurrence wins, the other way: every emitted row is the row of a record first with its ID. */
  lemma {:induction false} EmittedIsFirst(checks: Checks, ps: seq<Prepared>, e: ExampleRow)
    requires e in Run(checks, ps).examples
    ensures exists k :: 0 <= k < |ps| && FirstOfId(ps, k) && Row(checks, ps[k]) == Some(e)
    decreases |ps|
  {
    var n := |ps| - 1;
    var front := ps[..n];
    var st := Run(checks, front);
    StepEmits(checks, st, ps[n]);
    if e in st.examples {
      EmittedIsFirst(checks, front, e);
      var k :| 0 <= k < n && FirstOfId(front, k) && Row(checks, front[k]) == Some(e);
      FirstOfIdFront(ps, k);
      assert front[k] == ps[k];
    } else {
      FirstOfIdLast(checks, ps);
      assert FirstOfId(ps, n);
    }
  }

  /** The records that carry glottocode `g`. */
  function CountOf(ps: seq<Prepared>, g: string): nat
    decreases |ps|
  {
    if ps == [] then 0 else CountOf(ps[..|ps| - 1], g) + (if ps[|ps| - 1].rec.glottocode == g then 1 else 0)
  }

  lemma {:induction false} CountOfPositive(ps: seq<Prepared>, g: string)
    ensures CountOf(ps, g) > 0 <==> exists q :: 0 <= q < |ps| && ps[q].rec.glottocode == g
    decreases |ps|
  {
    if ps != [] {
      var front := ps[..|ps| - 1];
      CountOfPositive(front, g);
      assert forall q :: 0 <= q < |front| ==> front[q] == ps[q];
    }
  }

  /** The glottocode counter counts every record, skipped and duplicate ones included. */
  lemma {:induction false} LgsCounts(checks: Checks, ps: seq<Prepared>, g: string)
    ensures Count(Run(checks, ps).lgs, g) == CountOf(ps, g)
    ensures g in Run(checks, ps).lgs <==> CountOf(ps, g) > 0
    decreases |ps|
  {
    if ps != [] {
      LgsCounts(checks, ps[..|ps| - 1], g);
      StepLanguages(checks, Run(checks, ps[..|ps| - 1]), ps[|ps| - 1]);
    }
  }

  /** The counter's keys are the glottocodes of the records. */
  lemma LgsKeys(checks: Checks, ps: seq<Prepared>, g: string)
    ensures g in Run(checks, ps).lgs <==> exists q :: 0 <= q < |ps| && ps[q].rec.glottocode == g
  {
    LgsCounts(checks, ps, g);
    CountOfPositive(ps, g);
  }

  /** Record `k` is the first with its glottocode. */
  predicate FirstOfLanguage(ps: seq<Prepared>, k: nat)
    requires k < |ps|
  {
    forall q :: 0 <= q < k ==> ps[q].rec.glottocode != ps[k].rec.glottocode
  }

  /** The last record is first with its glottocode exactly when the counter has not met it yet. */
  lemma FirstOfLanguageLast(checks: Checks, ps: seq<Prepared>)
    requires ps != []
    ensures FirstOfLanguage(ps, |ps| - 1) <==> ps[|ps| - 1].rec.glottocode !in Run(checks, ps[..|ps| - 1]).lgs
  {
    var n := |ps| - 1;
    var front := ps[..n];
    LgsKeys(checks, front, ps[n].rec.glottocode);
    assert forall q :: 0 <= q < n ==> front[q] == ps[q];
  }

  predicate UniqueLanguageIds(ls: seq<LanguageRow>) {
    forall i, j :: 0 <= i < j < |ls| ==> ls[i].id != ls[j].id
  }

  /** The language rows carry exactly the glottocodes the counter has seen, each once. */
  lemma {:induction false} LanguageIds(checks: Checks, ps: seq<Prepared>)
    ensures UniqueLanguageIds(Run(checks, ps).languages)
    ensures forall g :: g in Run(checks, ps).lgs <==> exists l :: l in Run(checks, ps).languages && l.id == g
    decreases |ps|
  {
    if ps != [] {
      var front := ps[..|ps| - 1];
      var st := Run(checks, front);
      var r := ps[|ps| - 1].rec;
      LanguageIds(checks, front);
      assert UniqueLanguageIds(st.languages);
      StepLanguages(checks, st, ps[|ps| - 1]);
      var ls := Run(checks, ps).languages;
      if r.glottocode !in st.lgs {
        assert ls == st.languages + [LanguageOf(r)];
        forall i | 0 <= i < |st.languages| ensures ls[i].id != r.glottocode {
          assert ls[i] == st.languages[i];
          assert st.languages[i] in st.languages;
          assert st.languages[i].id in st.lgs;
        }
        forall i, j | 0 <= i < j < |ls| ensures ls[i].id != ls[j].id {
          if j < |st.languages| {
            assert ls[i] == st.languages[i] && ls[j] == st.languages[j];
            assert st.languages[i].id != st.languages[j].id;
          } else {
            assert ls[j] == LanguageOf(r) && LanguageOf(r).id == r.glottocode;
            assert ls[i].id != r.glottocode;
          }
        }
        forall l ensures l in ls <==> l in st.languages || l == LanguageOf(r) { }
      }
    }
  }

  lemma FirstOfLanguageFront(ps: seq<Prepared>, k: nat)
    requires k < |ps| - 1
    ensures FirstOfLanguage(ps[..|ps| - 1], k) <==> FirstOfLanguage(ps, k)
  {
    var front := ps[..|ps| - 1];
    assert forall q :: 0 <= q <= k ==> front[q] == ps[q];
  }

  /** The language row of every record first with its glottocode is written, skipped records included. */
  lemma {:induction false} FirstLanguageWritten(checks: Checks, ps: seq<Prepared>, k: nat)
    requires k < |ps| && FirstOfLanguage(ps, k)
    ensures LanguageOf(ps[k].rec) in Run(checks, ps).languages
    decreases |ps|
  {
    var n := |ps| - 1;
    var front := ps[..n];
    StepLanguages(checks, Run(checks, front), ps[n]);
    if k < n {
      FirstOfLanguageFront(ps, k);
      assert front[k] == ps[k];
      FirstLanguageWritten(checks, front, k);
    } else {
      FirstOfLanguageLast(checks, ps);
    }
  }

  /** Every language row comes from the first record with its glottocode. */
  lemma {:induction false} WrittenLanguageIsFirst(checks: Checks, ps: seq<Prepared>, l: LanguageRow)
    requires l in Run(checks, ps).languages
    ensures exists k :: 0 <= k < |ps| && FirstOfLanguage(ps, k) && l == LanguageOf(ps[k].rec)
    decreases |ps|
  {
    var n := |ps| - 1;
    var front := ps[..n];
    var st := Run(checks, front);
    StepLanguages(checks, st, ps[n]);
    if l in st.languages {
      WrittenLanguageIsFirst(checks, front, l);
      var k :| 0 <= k < n && FirstOfLanguage(front, k) && l == LanguageOf(front[k].rec);
      FirstOfLanguageFront(ps, k);
      assert front[k] == ps[k];
    } else {
      FirstOfLanguageLast(checks, ps);
      assert FirstOfLanguage(ps, n);
    }
  }

  /** Every cleaned token of every record, in the order the loop cleans them. */
  function AllTokens(ps: seq<Prepared>): seq<string>
    decreases |ps|
  {
    if ps == [] then [] else AllTokens(ps[..|ps| - 1]) + ps[|ps| - 1].words + ps[|ps| - 1].glosses
  }

  /**
   * The TeX counter is the tally of every cleaned token of every record,
   * skipped and duplicate records included.
   */
  lemma {:induction false} TexCounts(checks: Checks, ps: seq<Prepared>)
    ensures Run(checks, ps).tex == Tally(map[], AllTokens(ps))
    decreases |ps|
  {
    if ps != [] {
      var front := ps[..|ps| - 1];
      var p := ps[|ps| - 1];
      TexCounts(checks, front);
      RunLast(checks, ps);
      TexStepCounts(checks, Run(checks, front), p, AllTokens(front));
      AllTokensLast(ps);
    }
  }

  lemma AllTokensLast(ps: seq<Prepared>)
    requires ps != []
    ensures AllTokens(ps) == AllTokens(ps[..|ps| - 1]) + (ps[|ps| - 1].words + ps[|ps| - 1].glosses)
  {
  }

  /** A step extends the tallied token list by the record's tokens. */
  lemma TexStepCounts(checks: Checks, st: State, p: Prepared, toks: seq<string>)
    requires st.tex == Tally(map[], toks)
    ensures Step(checks, st, p).tex == Tally(map[], toks + (p.words + p.glosses))
  {
    StepTex(checks, st, p);
    TallyAppend(map[], toks, p.words + p.glosses);
  }

  /** The TeX counter, key by key: how often each cleaned token still holding a backslash was produced. */
  lemma TexCountsByKey(checks: Checks, ps: seq<Prepared>, k: string)
    ensures Count(Run(checks, ps).tex, k) == if '\\' in k then Occurrences(AllTokens(ps), k) else 0
  {
    TexCounts(checks, ps);
    TallyCounts(map[], AllTokens(ps), k);
  }

  // ---------------------------------------------------------------------
  // The loop itself

  /** The writer's object lists. */
  class Writer {
    var languages: seq<LanguageRow>
    var examples: seq<ExampleRow>

    constructor()
      ensures languages == [] && examples == []
    {
      languages := [];
      examples := [];
    }

    method AddLanguage(l: LanguageRow)
      modifies this
      ensures languages == old(languages) + [l] && examples == old(examples)
    {
      languages := languages + [l];
    }

    method AddExample(e: ExampleRow)
      modifies this
      ensures examples == old(examples) + [e] && languages == old(languages)
    {
      examples := examples + [e];
    }
  }

  /** The two `filtered` calls of one record: its cleaned lists, and the counter after both. */
  lemma FilterPair(cfg: Config, r: Record, tex: map<string, nat>)
    ensures var obj := Filtered(cfg, r.srcWords, tex);
            var gloss := Filtered(cfg, r.glossWords, obj.1);
            var p := Prepare(cfg, r);
            obj.0 == p.words && gloss.0 == p.glosses && gloss.1 == Tally(Tally(tex, p.words), p.glosses)
  {
    var obj := Filtered(cfg, r.srcWords, tex);
    FilteredTokensIgnoreCounter(cfg, r.srcWords, tex);
    FilteredTokensIgnoreCounter(cfg, r.glossWords, obj.1);
  }

  /**
   * One pass of the loop body for record `ex`: the writer, the TeX
   * counter, the glottocode counter and the seen set move from state `st`
   * to `Step(checks, st, Prepare(cfg, ex))`.
   */
  method AddRecord(cfg: Config, checks: Checks, ex: Record, w: Writer,
                   tex0: map<string, nat>, lgs0: map<string, nat>, seen0: set<string>,
                   ghost st: State, ghost langs0: seq<LanguageRow>, ghost exs0: seq<ExampleRow>)
    returns (tex: map<string, nat>, lgs: map<string, nat>, seen: set<string>)
    requires w.languages == langs0 + st.languages && w.examples == exs0 + st.examples
    requires tex0 == st.tex && lgs0 == st.lgs && seen0 == st.seen
    modifies w
    ensures var st' := Step(checks, st, Prepare(cfg, ex));
            w.languages == langs0 + st'.languages && w.examples == exs0 + st'.examples &&
            tex == st'.tex && lgs == st'.lgs && seen == st'.seen
  {
    ghost var p0 := Prepare(cfg, ex);
    FilterPair(cfg, ex, tex0);
    if ex.glottocode !in lgs0 {
      w.AddLanguage(LanguageOf(ex));
    }
    lgs := Tick(lgs0, ex.glottocode);
    var obj := Filtered(cfg, ex.srcWords, tex0);
    tex := obj.1;
    var gloss := Filtered(cfg, ex.glossWords, tex);
    tex := gloss.1;
    var p := Prepared(ex, obj.0, gloss.0);
    assert p == p0;
    seen := EmitRow(checks, p, w, seen0, st, exs0);
    StepLanguages(checks, st, p);
    StepTexPair(checks, st, p);
  }

  /**
   * The second half of the loop body: the record's example row goes to
   * the writer unless its cleaned words or glosses are empty or its ID was
   * seen before.
   */
  method EmitRow(checks: Checks, p: Prepared, w: Writer, seen0: set<string>,
                 ghost st: State, ghost exs0: seq<ExampleRow>)
    returns (seen: set<string>)
    requires w.examples == exs0 + st.examples && seen0 == st.seen
    modifies w
    ensures w.languages == old(w.languages)
    ensures var st' := Step(checks, st, p);
            w.examples == exs0 + st'.examples && seen == st'.seen
  {
    StepEmits(checks, st, p);
    seen := seen0;
    if p.words == [] || p.glosses == [] {
      return;
    }
    var id := RowId(p.rec);
    if id in seen {
      return;
    }
    seen := seen + {id};
    w.AddExample(MakeRow(checks, p.rec, p.words, p.glosses));
  }

  /** One more record runs one more step. */
  lemma RunNext(cfg: Config, checks: Checks, records: seq<Record>, i: nat)
    requires i < |records|
    ensures Run(checks, PrepareAll(cfg, records[..i + 1]))
         == Step(checks, Run(checks, PrepareAll(cfg, records[..i])), Prepare(cfg, records[i]))
  {
    assert records[..i + 1][..i] == records[..i];
    assert PrepareAll(cfg, records[..i + 1]) == PrepareAll(cfg, records[..i]) + [Prepare(cfg, records[i])];
  }

  /**
   * `cmd_makecldf`'s loop over the records: the writer receives exactly
   * the language and example rows of `Run`, and the TeX counter it returns
   * is `Run`'s.
   */
  method MakeCldf(cfg: Config, checks: Checks, records: seq<Record>, w: Writer) returns (tex: map<string, nat>)
    modifies w
    ensures w.languages == old(w.languages) + Run(checks, PrepareAll(cfg, records)).languages
    ensures w.examples == old(w.examples) + Run(checks, PrepareAll(cfg, records)).examples
    ensures tex == Run(checks, PrepareAll(cfg, records)).tex
  {
    tex := map[];
    var lgs: map<string, nat> := map[];
    var seen: set<string> := {};
    ghost var langs0, exs0 := w.languages, w.examples;
    for i := 0 to |records|
      invariant var st := Run(checks, PrepareAll(cfg, records[..i]));
                w.languages == langs0 + st.languages && w.examples == exs0 + st.examples &&
                tex == st.tex && lgs == st.lgs && seen == st.seen
    {
      ghost var st := Run(checks, PrepareAll(cfg, records[..i]));
      RunNext(cfg, checks, records, i);
      tex, lgs, seen := AddRecord(cfg, checks, records[i], w, tex, lgs, seen, st, langs0, exs0);
    }
    assert records[..|records|] == records;
  }
}
