/**
 * The specialty ontology of search/ontology.py: a two-level taxonomy of
 * specialty labels (parents and their children) with a synonym table, lexical
 * inference of labels from free text, and a hierarchy-aware overlap score.
 */
module Ontology {
  import opened Wrappers
  import opened Strings
  import opened Orders

  /**
   * The already-parsed configuration: the `specialties` mapping (a parent and
   * its list of children, absent when the YAML value is empty) and the
   * `synonyms` mapping (a token and its list of labels), in file order. A
   * missing or empty section is the empty sequence.
   */
  datatype Taxonomy = Taxonomy(specialties: seq<(string, Option<seq<string>>)>, synonyms: seq<(string, seq<string>)>)

  /** `labels`, `parent_to_children` and `child_to_parent`. */
  datatype Tables = Tables(labels: set<string>, children: map<string, set<string>>, parent: map<string, string>)

  // ---------------------------------------------------------------------------
  // The tables `__init__` builds, as a fold over the configuration
  // ---------------------------------------------------------------------------

  /** The stripped parent `p` becomes a label and gets a child set (empty unless it already has one). */
  function OpenParent(t: Tables, p: string): (r: Tables)
    ensures p in r.children
  {
    Tables(t.labels + {p}, if p in t.children then t.children else t.children[p := {}], t.parent)
  }

  /** One child `c0` of the stripped parent `p`: recorded as a label, a child of `p`, and with `p` as its parent. */
  function AddChild(t: Tables, p: string, c0: string): (r: Tables)
    requires p in t.children
    ensures p in r.children
  {
    var c := Strip(c0);
    Tables(t.labels + {c}, t.children[p := t.children[p] + {c}], t.parent[c := p])
  }

  /** The children of `p`, one after the other. */
  function AddChildren(t: Tables, p: string, cs: seq<string>): (r: Tables)
    requires p in t.children
    ensures p in r.children
  {
    if cs == [] then t else AddChild(AddChildren(t, p, cs[..|cs| - 1]), p, cs[|cs| - 1])
  }

  function AddSpecialty(t: Tables, entry: (string, Option<seq<string>>)): Tables {
    AddChildren(OpenParent(t, Strip(entry.0)), Strip(entry.0), entry.1.GetOr([]))
  }

  /** The tables after the `specialties` loop of `__init__`. */
  function BuildTables(specs: seq<(string, Option<seq<string>>)>): Tables {
    if specs == [] then Tables({}, map[], map[])
    else AddSpecialty(BuildTables(specs[..|specs| - 1]), specs[|specs| - 1])
  }

  /** The key a synonym token is stored under. */
  function SynonymKey(token: string): string {
    Strip(Lower(token))
  }

  function Targets(lbls: seq<string>): set<string> {
    set l | l in lbls :: Strip(l)
  }

  /** The `synonyms` table: a later token with the same key replaces an earlier one. */
  function BuildSynonyms(syns: seq<(string, seq<string>)>): map<string, set<string>> {
    if syns == [] then map[]
    else BuildSynonyms(syns[..|syns| - 1])[SynonymKey(syns[|syns| - 1].0) := Targets(syns[|syns| - 1].1)]
  }

  /** Every stripped parent and child named by the configuration. */
  function Mentioned(specs: seq<(string, Option<seq<string>>)>): set<string> {
    if specs == [] then {}
    else
      var e := specs[|specs| - 1];
      Mentioned(specs[..|specs| - 1]) + {Strip(e.0)} + (set c | c in e.1.GetOr([]) :: Strip(c))
  }

  /**
   * The consistency of the three tables: the labels are exactly the parents
   * and the children; a child's recorded parent lists it among its children;
   * every listed child has a recorded parent. Multiple parents are not
   * rejected: the last one listed is the recorded parent.
   */
  ghost predicate TablesOk(t: Tables) {
    && t.labels == t.children.Keys + t.parent.Keys
    && (forall c :: c in t.parent ==> t.parent[c] in t.children && c in t.children[t.parent[c]])
    && (forall p, c :: p in t.children && c in t.children[p] ==> c in t.parent)
  }

  /** `t2` keeps every label, parent, child set member and parent entry of `t1`. */
  ghost predicate Grows(t1: Tables, t2: Tables) {
    && t1.labels <= t2.labels
    && t1.parent.Keys <= t2.parent.Keys
    && (forall p :: p in t1.children ==> p in t2.children && t1.children[p] <= t2.children[p])
  }

  lemma AddChildKeeps(t: Tables, p: string, c0: string)
    requires p in t.children && TablesOk(t)
    ensures TablesOk(AddChild(t, p, c0)) && Grows(t, AddChild(t, p, c0))
    ensures AddChild(t, p, c0).labels == t.labels + {Strip(c0)}
  {
  }

  lemma {:induction false} AddChildrenKeeps(t: Tables, p: string, cs: seq<string>)
    requires p in t.children && TablesOk(t)
    ensures TablesOk(AddChildren(t, p, cs)) && Grows(t, AddChildren(t, p, cs))
  {
    if cs != [] {
      var init := cs[..|cs| - 1];
      AddChildrenKeeps(t, p, init);
      AddChildKeeps(AddChildren(t, p, init), p, cs[|cs| - 1]);
    }
  }

  lemma {:induction false} AddChildrenLabels(t: Tables, p: string, cs: seq<string>)
    requires p in t.children
    ensures AddChildren(t, p, cs).labels == t.labels + (set c | c in cs :: Strip(c))
  {
    if cs != [] {
      var init := cs[..|cs| - 1];
      var last := cs[|cs| - 1];
      AddChildrenLabels(t, p, init);
      assert (set c | c in cs :: Strip(c)) == (set c | c in init :: Strip(c)) + {Strip(last)} by {
        assert cs == init + [last];
      }
    }
  }

  lemma {:induction false} AddChildrenRecords(t: Tables, p: string, cs: seq<string>)
    requires p in t.children && TablesOk(t)
    ensures forall c :: c in cs ==> Strip(c) in AddChildren(t, p, cs).children[p] && Strip(c) in AddChildren(t, p, cs).parent
  {
    if cs != [] {
      var init := cs[..|cs| - 1];
      var last := cs[|cs| - 1];
      AddChildrenRecords(t, p, init);
      AddChildrenKeeps(t, p, init);
      var u := AddChildren(t, p, init);
      AddChildKeeps(u, p, last);
      var w := AddChildren(t, p, cs);
      assert w == AddChild(u, p, last);
      forall c | c in cs
        ensures Strip(c) in w.children[p] && Strip(c) in w.parent
      {
        if c != last {
          assert c in init by {
            assert cs == init + [last];
          }
          assert Strip(c) in u.children[p] && Strip(c) in u.parent;
        }
      }
    }
  }

  lemma AddSpecialtyKeeps(t: Tables, e: (string, Option<seq<string>>))
    requires TablesOk(t)
    ensures TablesOk(AddSpecialty(t, e)) && Grows(t, AddSpecialty(t, e))
    ensures AddSpecialty(t, e).labels == t.labels + {Strip(e.0)} + (set c | c in e.1.GetOr([]) :: Strip(c))
    ensures Strip(e.0) in AddSpecialty(t, e).children
    ensures forall c :: c in e.1.GetOr([]) ==>
      Strip(c) in AddSpecialty(t, e).children[Strip(e.0)] && Strip(c) in AddSpecialty(t, e).parent
  {
    var p := Strip(e.0);
    AddChildrenKeeps(OpenParent(t, p), p, e.1.GetOr([]));
    AddChildrenLabels(OpenParent(t, p), p, e.1.GetOr([]));
    AddChildrenRecords(OpenParent(t, p), p, e.1.GetOr([]));
  }

  lemma {:induction false} GrowsTransitive(t1: Tables, t2: Tables, t3: Tables)
    requires Grows(t1, t2) && Grows(t2, t3)
    ensures Grows(t1, t3)
  {
  }

  /**
   * After construction the tables are consistent and the labels are exactly
   * the stripped parents and children.
   */
  lemma {:induction false} BuildTablesOk(specs: seq<(string, Option<seq<string>>)>)
    ensures TablesOk(BuildTables(specs))
    ensures BuildTables(specs).labels == Mentioned(specs)
  {
    if specs != [] {
      BuildTablesOk(specs[..|specs| - 1]);
      AddSpecialtyKeeps(BuildTables(specs[..|specs| - 1]), specs[|specs| - 1]);
    }
  }

  /** A later specialty entry keeps everything an earlier one recorded. */
  lemma {:induction false} BuildTablesGrows(specs: seq<(string, Option<seq<string>>)>, n: nat)
    requires n <= |specs|
    ensures Grows(BuildTables(specs[..n]), BuildTables(specs))
    decreases |specs| - n
  {
    if n < |specs| {
      BuildTablesGrows(specs, n + 1);
      var t := BuildTables(specs[..n]);
      assert specs[..n + 1][..n] == specs[..n];
      BuildTablesOk(specs[..n]);
      AddSpecialtyKeeps(t, specs[n]);
      GrowsTransitive(t, BuildTables(specs[..n + 1]), BuildTables(specs));
    } else {
      assert specs[..n] == specs;
    }
  }

  /**
   * Every stripped parent is a label with a (possibly empty) child set; every
   * stripped child listed under it is a label, in that child set, and has a
   * recorded parent.
   */
  lemma EverySpecialtyRecorded(specs: seq<(string, Option<seq<string>>)>, i: nat, c: string)
    requires i < |specs|
    ensures var t := BuildTables(specs); var p := Strip(specs[i].0);
      p in t.labels && p in t.children
    ensures var t := BuildTables(specs); var p := Strip(specs[i].0);
      c in specs[i].1.GetOr([]) ==> Strip(c) in t.labels && p in t.children && Strip(c) in t.children[p] && Strip(c) in t.parent
  {
    var t := BuildTables(specs);
    var p := Strip(specs[i].0);
    assert specs[..i + 1][..i] == specs[..i];
    BuildTablesOk(specs[..i]);
    AddSpecialtyKeeps(BuildTables(specs[..i]), specs[i]);
    BuildTablesGrows(specs, i + 1);
    BuildTablesOk(specs);
  }

  /** A synonym table is normalised: keys lowercased and stripped, targets stripped. */
  ghost predicate SynonymsOk(syn: map<string, set<string>>) {
    && (forall k :: k in syn ==> NoUpper(k) && Strip(k) == k)
    && (forall k, l :: k in syn && l in syn[k] ==> Strip(l) == l)
  }

  lemma SynonymKeyNormal(token: string)
    ensures NoUpper(SynonymKey(token)) && Strip(SynonymKey(token)) == SynonymKey(token)
  {
    LowerHasNoUpper(token);
    StripKeepsNoUpper(Lower(token));
    StripIdempotent(Lower(token));
  }

  /** The synonym table's keys are lowercased and stripped, and its targets are stripped. */
  lemma {:induction false} BuildSynonymsOk(syns: seq<(string, seq<string>)>)
    ensures SynonymsOk(BuildSynonyms(syns))
  {
    if syns != [] {
      var last := syns[|syns| - 1];
      BuildSynonymsOk(syns[..|syns| - 1]);
      SynonymKeyNormal(last.0);
      forall l | l in Targets(last.1) ensures Strip(l) == l {
        var l0 :| l0 in last.1 && l == Strip(l0);
        StripIdempotent(l0);
      }
    }
  }

  /** Every token has an entry under its key, and there are no other keys. */
  lemma BuildSynonymsKeys(syns: seq<(string, seq<string>)>)
    ensures forall k :: k in BuildSynonyms(syns) <==> exists i :: 0 <= i < |syns| && SynonymKey(syns[i].0) == k
  {
    BuildSynonymsKeysSound(syns);
    BuildSynonymsKeysComplete(syns);
  }

  lemma {:induction false} BuildSynonymsKeysSound(syns: seq<(string, seq<string>)>)
    ensures forall k :: k in BuildSynonyms(syns) ==> exists i :: 0 <= i < |syns| && SynonymKey(syns[i].0) == k
  {
    if syns != [] {
      var init := syns[..|syns| - 1];
      BuildSynonymsKeysSound(init);
      forall k | k in BuildSynonyms(syns) ensures exists i :: 0 <= i < |syns| && SynonymKey(syns[i].0) == k {
        if k != SynonymKey(syns[|syns| - 1].0) {
          assert k in BuildSynonyms(init);
          var i :| 0 <= i < |init| && SynonymKey(init[i].0) == k;
          assert syns[i] == init[i];
        } else {
          assert SynonymKey(syns[|syns| - 1].0) == k;
        }
      }
    }
  }

  lemma {:induction false} BuildSynonymsKeysComplete(syns: seq<(string, seq<string>)>)
    ensures forall i :: 0 <= i < |syns| ==> SynonymKey(syns[i].0) in BuildSynonyms(syns)
  {
    if syns != [] {
      var init := syns[..|syns| - 1];
      BuildSynonymsKeysComplete(init);
      forall i | 0 <= i < |init| ensures SynonymKey(syns[i].0) in BuildSynonyms(syns) {
        assert syns[i] == init[i];
      }
    }
  }

  /** A key maps to the targets of the last token with that key. */
  lemma {:induction false} BuildSynonymsLastWins(syns: seq<(string, seq<string>)>, i: nat)
    requires i < |syns|
    requires forall j :: i < j < |syns| ==> SynonymKey(syns[j].0) != SynonymKey(syns[i].0)
    ensures SynonymKey(syns[i].0) in BuildSynonyms(syns)
    ensures BuildSynonyms(syns)[SynonymKey(syns[i].0)] == Targets(syns[i].1)
  {
    var init := syns[..|syns| - 1];
    if i < |init| {
      assert init[i] == syns[i];
      assert forall j :: i < j < |init| ==> init[j] == syns[j];
      BuildSynonymsLastWins(init, i);
    }
  }

  /** `_label_lc`: each key is some label's lowercase form, mapped to a label with that lowercase form. */
  ghost predicate LabelIndex(lc: map<string, string>, labels: set<string>) {
    && (forall l :: l in labels ==> Lower(l) in lc)
    && (forall k :: k in lc ==> lc[k] in labels && Lower(lc[k]) == k)
  }

  // ---------------------------------------------------------------------------
  // The loops of `__init__`
  // ---------------------------------------------------------------------------

  /** The `specialties` loop: labels, parent-to-children and child-to-parent tables. */
  method FillTables(specs: seq<(string, Option<seq<string>>)>)
    returns (lbls: set<string>, p2c: map<string, set<string>>, c2p: map<string, string>)
    ensures Tables(lbls, p2c, c2p) == BuildTables(specs)
  {
    lbls, p2c, c2p := {}, map[], map[];
    for i := 0 to |specs|
      invariant Tables(lbls, p2c, c2p) == BuildTables(specs[..i])
    {
      var p := Strip(specs[i].0);
      lbls := lbls + {p};
      if p !in p2c {
        p2c := p2c[p := {}];
      }
      var cs := specs[i].1.GetOr([]);
      ghost var t0 := Tables(lbls, p2c, c2p);
      for j := 0 to |cs|
        invariant p in p2c && Tables(lbls, p2c, c2p) == AddChildren(t0, p, cs[..j])
      {
        assert cs[..j + 1][..j] == cs[..j];
        var c := Strip(cs[j]);
        lbls := lbls + {c};
        p2c := p2c[p := p2c[p] + {c}];
        c2p := c2p[c := p];
      }
      assert cs[..|cs|] == cs;
      assert specs[..i + 1][..i] == specs[..i];
    }
    assert specs[..|specs|] == specs;
  }

  /** The `synonyms` loop. */
  method FillSynonyms(syns: seq<(string, seq<string>)>) returns (syn: map<string, set<string>>)
    ensures syn == BuildSynonyms(syns)
  {
    syn := map[];
    for i := 0 to |syns|
      invariant syn == BuildSynonyms(syns[..i])
    {
      assert syns[..i + 1][..i] == syns[..i];
      syn := syn[SynonymKey(syns[i].0) := set l | l in syns[i].1 :: Strip(l)];
    }
    assert syns[..|syns|] == syns;
  }

  /** `_label_lc`: each label filed under its lowercase form, visiting the labels in an unspecified order. */
  method IndexLabels(lbls: set<string>) returns (lc: map<string, string>)
    ensures LabelIndex(lc, lbls)
  {
    lc := map[];
    var rest := lbls;
    while rest != {}
      invariant rest <= lbls
      invariant forall l :: l in lbls && l !in rest ==> Lower(l) in lc
      invariant forall k :: k in lc ==> lc[k] in lbls && Lower(lc[k]) == k
      decreases rest
    {
      var l :| l in rest;
      lc := lc[Lower(l) := l];
      rest := rest - {l};
    }
  }

  // ---------------------------------------------------------------------------
  // The ontology object
  // ---------------------------------------------------------------------------

  class SpecialtyOntology {
    const labels: set<string>
    const parentToChildren: map<string, set<string>>
    const childToParent: map<string, string>
    const synonyms: map<string, set<string>>
    const labelLc: map<string, string>

    ghost predicate Valid() {
      && TablesOk(Tables(labels, parentToChildren, childToParent))
      && SynonymsOk(synonyms)
      && LabelIndex(labelLc, labels)
    }

    /**
     * `__init__`: fills the tables from the configuration. `_label_lc` is
     * built from the label set, whose iteration order is unspecified: when two
     * labels have the same lowercase form, either may be kept.
     */
    constructor (data: Taxonomy)
      ensures Valid()
      ensures Tables(labels, parentToChildren, childToParent) == BuildTables(data.specialties)
      ensures synonyms == BuildSynonyms(data.synonyms)
    {
      var lbls, p2c, c2p := FillTables(data.specialties);
      var syn := FillSynonyms(data.synonyms);
      var lc := IndexLabels(lbls);
      BuildTablesOk(data.specialties);
      BuildSynonymsOk(data.synonyms);
      labels := lbls;
      parentToChildren := p2c;
      childToParent := c2p;
      synonyms := syn;
      labelLc := lc;
    }

    // -------------------------------------------------------------------------
    // infer_from_text
    // -------------------------------------------------------------------------

    /** The labels whose lowercase key, among `keys`, is a non-empty substring of `text`. */
    ghost function LabelHits(keys: set<string>, text: string): set<string> {
      set k | k in keys && k in labelLc && k != "" && IsSubstring(k, text) :: labelLc[k]
    }

    /** The targets of the synonym tokens, among `keys`, that are substrings of `text`. */
    ghost function SynonymHits(keys: set<string>, text: string): set<string> {
      set k, l | k in keys && k in synonyms && IsSubstring(k, text) && l in synonyms[k] :: l
    }

    /** The lowercased text `infer_from_text` matches against. */
    function MatchText(symptoms: string, history: string): string {
      Lower(symptoms + " " + history)
    }

    ghost function InferredSet(symptoms: string, history: string): set<string> {
      var text := MatchText(symptoms, history);
      LabelHits(labelLc.Keys, text) + SynonymHits(synonyms.Keys, text)
    }

    /** The result of `infer_from_text`: the matched labels, sorted and without duplicates. */
    ghost function Inferred(symptoms: string, history: string): (r: seq<string>)
      ensures forall i, j :: 0 <= i < j < |r| ==> StrLt(r[i], r[j])
      ensures forall i, j :: 0 <= i < j < |r| ==> r[i] != r[j]
      ensures forall x :: x in r <==> x in InferredSet(symptoms, history)
    {
      StrLtIsStrictTotal();
      var r := SortedOf(InferredSet(symptoms, history), StrLt);
      assert forall i, j :: 0 <= i < j < |r| ==> r[i] != r[j] by {
        forall i, j | 0 <= i < j < |r| ensures r[i] != r[j] {
          StrLtIrreflexive(r[i]);
        }
      }
      r
    }

    method InferFromText(symptoms: string, history: string) returns (r: seq<string>)
      ensures r == Inferred(symptoms, history)
    {
      var text := Lower(symptoms + " " + history);
      var found: set<string> := {};
      var keys := labelLc.Keys;
      while keys != {}
        invariant keys <= labelLc.Keys
        invariant found == LabelHits(labelLc.Keys - keys, text)
        decreases keys
      {
        var lc :| lc in keys;
        if lc != "" && IsSubstring(lc, text) {
          found := found + {labelLc[lc]};
        }
        keys := keys - {lc};
      }
      assert labelLc.Keys - keys == labelLc.Keys;
      ghost var fromLabels := found;
      var toks := synonyms.Keys;
      while toks != {}
        invariant toks <= synonyms.Keys
        invariant found == fromLabels + SynonymHits(synonyms.Keys - toks, text)
        decreases toks
      {
        var tok :| tok in toks;
        if IsSubstring(tok, text) {
          found := found + synonyms[tok];
        }
        toks := toks - {tok};
      }
      assert synonyms.Keys - toks == synonyms.Keys;
      StrLtIsStrictTotal();
      r := SortSet(found, StrLt);
    }

    /** Nothing outside the labels and the synonym targets is ever inferred. */
    lemma InferredWithinVocabulary(symptoms: string, history: string, x: string)
      requires Valid()
      requires x in Inferred(symptoms, history)
      ensures x in labels || exists k :: k in synonyms && x in synonyms[k]
    {
    }

    /**
     * A label whose lowercase form is a non-empty substring of the lowercased
     * text is inferred, possibly as another label with the same lowercase form.
     */
    lemma LabelMatchInferred(symptoms: string, history: string, l: string)
      requires Valid() && l in labels
      requires Lower(l) != "" && IsSubstring(Lower(l), MatchText(symptoms, history))
      ensures exists x :: x in Inferred(symptoms, history) && x in labels && Lower(x) == Lower(l)
      ensures (forall m :: m in labels && Lower(m) == Lower(l) ==> m == l) ==> l in Inferred(symptoms, history)
    {
      var k := Lower(l);
      assert labelLc[k] in LabelHits(labelLc.Keys, MatchText(symptoms, history));
    }

    /** A synonym token found in the text contributes all its targets. */
    lemma SynonymMatchInferred(symptoms: string, history: string, token: string)
      requires token in synonyms && IsSubstring(token, MatchText(symptoms, history))
      ensures forall l :: l in synonyms[token] ==> l in Inferred(symptoms, history)
    {
      forall l | l in synonyms[token] ensures l in Inferred(symptoms, history) {
        assert l in SynonymHits(synonyms.Keys, MatchText(symptoms, history));
      }
    }

    // -------------------------------------------------------------------------
    // score
    // -------------------------------------------------------------------------

    /** One of the two labels is the recorded parent of the other. */
    predicate ParentChild(a: string, b: string) {
      (a in childToParent && childToParent[a] == b) || (b in childToParent && childToParent[b] == a)
    }

    /** `a` has a truthy (non-empty) parent that `b` shares. */
    predicate Siblings(a: string, b: string) {
      a in childToParent && childToParent[a] != "" && b in childToParent && childToParent[b] == childToParent[a]
    }

    /** The inner loop over `dset` of the exact test. */
    function SharesWith(a: string, ds: seq<string>): (r: bool)
      ensures r <==> a in ds
    {
      if ds == [] then false else a == ds[0] || SharesWith(a, ds[1..])
    }

    /** `pset & dset` is non-empty. */
    function AnyShared(ps: seq<string>, ds: seq<string>): (r: bool)
      ensures r <==> exists a :: a in ps && a in ds
    {
      if ps == [] then false else SharesWith(ps[0], ds) || AnyShared(ps[1..], ds)
    }

    function RelatedTo(a: string, ds: seq<string>): (r: bool)
      ensures r <==> exists b :: b in ds && ParentChild(a, b)
    {
      if ds == [] then false else ParentChild(a, ds[0]) || RelatedTo(a, ds[1..])
    }

    /** The parent/child double loop finds a pair. */
    function AnyRelated(ps: seq<string>, ds: seq<string>): (r: bool)
      ensures r <==> exists a, b :: a in ps && b in ds && ParentChild(a, b)
    {
      if ps == [] then false else RelatedTo(ps[0], ds) || AnyRelated(ps[1..], ds)
    }

    function SiblingIn(a: string, ds: seq<string>): (r: bool)
      ensures r <==> exists b :: b in ds && Siblings(a, b)
    {
      if a !in childToParent || childToParent[a] == "" then false
      else if ds == [] then false
      else Siblings(a, ds[0]) || SiblingIn(a, ds[1..])
    }

    /** The sibling double loop finds a pair (labels without a parent are skipped). */
    function AnySibling(ps: seq<string>, ds: seq<string>): (r: bool)
      ensures r <==> exists a, b :: a in ps && b in ds && Siblings(a, b)
    {
      if ps == [] then false else SiblingIn(ps[0], ds) || AnySibling(ps[1..], ds)
    }

    /** `score(patient_labels, doctor_labels)`. */
    function Score(ps: seq<string>, ds: seq<string>): (r: real)
      ensures r == 0.0 || r == 0.5 || r == 0.7 || r == 1.0
      ensures ps == [] || ds == [] ==> r == 0.0
    {
      if ps == [] || ds == [] then 0.0
      else if AnyShared(ps, ds) then 1.0
      else if AnyRelated(ps, ds) then 0.7
      else if AnySibling(ps, ds) then 0.5
      else 0.0
    }

    /**
     * The precedence of `score`: a common label gives 1.0; otherwise a direct
     * parent/child pair gives 0.7; otherwise two labels under the same
     * non-empty parent give 0.5; otherwise 0.0.
     */
    lemma ScorePrecedence(ps: seq<string>, ds: seq<string>)
      requires ps != [] && ds != []
      ensures Score(ps, ds) == 1.0 <==> exists a :: a in ps && a in ds
      ensures Score(ps, ds) == 0.7 <==>
        (forall a :: a in ps ==> a !in ds) && exists a, b :: a in ps && b in ds && ParentChild(a, b)
      ensures Score(ps, ds) == 0.5 <==>
        && (forall a :: a in ps ==> a !in ds)
        && (forall a, b :: a in ps && b in ds ==> !ParentChild(a, b))
        && exists a, b :: a in ps && b in ds && Siblings(a, b)
      ensures Score(ps, ds) == 0.0 <==>
        && (forall a :: a in ps ==> a !in ds)
        && (forall a, b :: a in ps && b in ds ==> !ParentChild(a, b) && !Siblings(a, b))
    {
    }

    /** `score` does not depend on which side is the patient. */
    lemma ScoreSymmetric(ps: seq<string>, ds: seq<string>)
      ensures Score(ps, ds) == Score(ds, ps)
    {
      if AnySibling(ps, ds) {
        var a, b :| a in ps && b in ds && Siblings(a, b);
        assert Siblings(b, a);
      }
      if AnySibling(ds, ps) {
        var b, a :| b in ds && a in ps && Siblings(b, a);
        assert Siblings(a, b);
      }
      if AnyRelated(ps, ds) {
        var a, b :| a in ps && b in ds && ParentChild(a, b);
        assert ParentChild(b, a);
      }
      if AnyRelated(ds, ps) {
        var b, a :| b in ds && a in ps && ParentChild(b, a);
        assert ParentChild(a, b);
      }
    }

    /** Patient labels none of which has a parent never score as siblings. */
    lemma NoParentNoSibling(ps: seq<string>, ds: seq<string>)
      requires forall a :: a in ps ==> a !in childToParent || childToParent[a] == ""
      ensures Score(ps, ds) != 0.5
    {
      assert !AnySibling(ps, ds);
    }
  }
}
