/**
 * The reranker of search/rerank.py: each retrieved doctor gets a composite
 * score from four sub-scores (specialty match, proximity, experience,
 * language), and the candidates are sorted by that score, highest first.
 */
module Rerank {
  import opened Wrappers
  import opened Strings
  import opened Records
  import opened Ontology

  /** The policy weights: 0.55, 0.25, 0.15 and 0.05. */
  const WSpec: real := 55.0 / 100.0
  const WProx: real := 25.0 / 100.0
  const WYoe: real := 15.0 / 100.0
  const WLang: real := 5.0 / 100.0

  /** The patient dictionary the search view hands over. */
  datatype Patient = Patient(symptoms: string, history: string, city: string, pincode: string, languages: seq<Json>)

  /** One reranked candidate: the doctor, its composite score and its retrieval similarity. */
  datatype Ranked = Ranked(doctor: DoctorRecord, score: real, faissSim: real)

  // ---------------------------------------------------------------------------
  // Experience normalisation
  // ---------------------------------------------------------------------------

  function Min(values: seq<int>): (m: int)
    requires values != []
    ensures m in values && forall v :: v in values ==> m <= v
  {
    if |values| == 1 then values[0]
    else
      var rest := Min(values[1..]);
      assert forall v :: v in values ==> v == values[0] || v in values[1..];
      if values[0] <= rest then values[0] else rest
  }

  function Max(values: seq<int>): (m: int)
    requires values != []
    ensures m in values && forall v :: v in values ==> v <= m
  {
    if |values| == 1 then values[0]
    else
      var rest := Max(values[1..]);
      assert forall v :: v in values ==> v == values[0] || v in values[1..];
      if values[0] >= rest then values[0] else rest
  }

  /** `_norm_yoe`: min-max normalisation of the experience values over the candidate set. */
  function NormYoe(values: seq<int>): (m: map<int, real>)
    ensures m.Keys == set v | v in values
  {
    if values == [] then map[]
    else
      var mn := Min(values);
      var mx := Max(values);
      if mx <= mn then map v | v in values :: 0.0
      else map v | v in values :: (v - mn) as real / (mx - mn) as real
  }

  /** No values give the empty map; values that are all equal all map to 0. */
  lemma NormYoeDegenerate(values: seq<int>)
    ensures values == [] ==> NormYoe(values) == map[]
    ensures (forall a, b :: a in values && b in values ==> a == b) ==>
      forall v :: v in values ==> NormYoe(values)[v] == 0.0
  {
    if values != [] && forall a, b :: a in values && b in values ==> a == b {
      assert Max(values) == Min(values);
    }
  }

  /** Every value maps into [0, 1]. */
  lemma NormYoeInUnit(values: seq<int>, v: int)
    requires v in values
    ensures 0.0 <= NormYoe(values)[v] <= 1.0
  {
    var mn := Min(values);
    var mx := Max(values);
    if mx > mn {
      assert NormYoe(values)[v] == (v - mn) as real / (mx - mn) as real;
      RatioInUnit((v - mn) as real, (mx - mn) as real);
    }
  }

  lemma RatioInUnit(x: real, d: real)
    requires 0.0 <= x <= d && d > 0.0
    ensures 0.0 <= x / d <= 1.0
  {
    DivMonotone(0.0, x, d);
    DivMonotone(x, d, d);
    DivSelf(d);
  }

  /** Larger experience never maps lower. */
  lemma NormYoeMonotone(values: seq<int>, a: int, b: int)
    requires a in values && b in values && a <= b
    ensures NormYoe(values)[a] <= NormYoe(values)[b]
  {
    var mn := Min(values);
    var mx := Max(values);
    if mx > mn {
      assert NormYoe(values)[a] == (a - mn) as real / (mx - mn) as real;
      assert NormYoe(values)[b] == (b - mn) as real / (mx - mn) as real;
      DivMonotone((a - mn) as real, (b - mn) as real, (mx - mn) as real);
    }
  }

  /** When the values differ, the smallest maps to 0 and the largest to 1. */
  lemma NormYoeEnds(values: seq<int>, a: int, b: int)
    requires a in values && b in values && a != b
    ensures NormYoe(values)[Min(values)] == 0.0 && NormYoe(values)[Max(values)] == 1.0
  {
    var mn := Min(values);
    var mx := Max(values);
    assert mx > mn by {
      assert mn <= a <= mx && mn <= b <= mx;
    }
    var d := (mx - mn) as real;
    assert NormYoe(values)[mn] == 0.0 / d;
    assert NormYoe(values)[mx] == d / d;
    DivSelf(d);
  }

  lemma DivSelf(d: real)
    requires d > 0.0
    ensures d / d == 1.0
  {
  }

  lemma DivMonotone(x: real, y: real, d: real)
    requires x <= y && d > 0.0
    ensures x / d <= y / d
  {
    assert x / d * d == x && y / d * d == y;
  }

  /** A doctor's years of experience; a NULL value counts as 0. */
  function Yoe(d: DoctorRecord): int {
    d.yearsOfExperience.GetOr(0)
  }

  function YoeValues(ds: seq<DoctorRecord>): (ys: seq<int>)
    ensures |ys| == |ds| && forall i :: 0 <= i < |ds| ==> ys[i] == Yoe(ds[i])
  {
    seq(|ds|, i requires 0 <= i < |ds| => Yoe(ds[i]))
  }

  // ---------------------------------------------------------------------------
  // Proximity and language
  // ---------------------------------------------------------------------------

  /** `_proximity_score`: pincodes are compared as given, cities after strip and lowercase. */
  function ProximityScore(pCity: string, pPin: string, dCity: string, dPin: string): (r: real)
    ensures r == 1.0 <==> pPin != "" && pPin == dPin
    ensures r == 0.6 <==> !(pPin != "" && pPin == dPin) && pCity != "" && dCity != "" && Lower(Strip(pCity)) == Lower(Strip(dCity))
    ensures r == 0.0 || r == 0.6 || r == 1.0
  {
    if pPin != "" && dPin != "" && pPin == dPin then 1.0
    else if pCity != "" && dCity != "" && Lower(Strip(pCity)) == Lower(Strip(dCity)) then 0.6
    else 0.0
  }

  /** A JSON value Python cannot put in a set. */
  predicate Unhashable(j: Json) {
    j.JList? || j.JObject?
  }

  /**
   * `_language_score`: 1.0 when the two language sets meet, else 0.0; building
   * a set of the patient's values fails on a list or object among them, and
   * that failure is caught as 0.0.
   */
  function LanguageScore(pLangs: seq<Json>, dLangs: seq<string>): (r: real)
    ensures r == 1.0 <==> (forall j :: j in pLangs ==> !Unhashable(j)) && exists s :: JStr(s) in pLangs && s in dLangs
    ensures r == 0.0 || r == 1.0
  {
    if exists j :: j in pLangs && Unhashable(j) then 0.0
    else if exists s :: s in dLangs && JStr(s) in pLangs then 1.0
    else 0.0
  }

  // ---------------------------------------------------------------------------
  // Composite score and the sort
  // ---------------------------------------------------------------------------

  function Composite(spec: real, prox: real, yoe: real, lang: real): real {
    WSpec * spec + WProx * prox + WYoe * yoe + WLang * lang
  }

  /** The weights sum to one, so sub-scores in [0, 1] give a composite in [0, 1]. */
  lemma CompositeBounds(spec: real, prox: real, yoe: real, lang: real)
    requires 0.0 <= spec <= 1.0 && 0.0 <= prox <= 1.0 && 0.0 <= yoe <= 1.0 && 0.0 <= lang <= 1.0
    ensures 0.0 <= Composite(spec, prox, yoe, lang) <= 1.0
    ensures Composite(1.0, 1.0, 1.0, 1.0) == 1.0 && Composite(0.0, 0.0, 0.0, 0.0) == 0.0
  {
  }

  /** The score of one doctor against the inferred labels and the patient. */
  function ScoreOf(onto: SpecialtyOntology, inferred: seq<string>, p: Patient, norm: map<int, real>, d: DoctorRecord): real {
    Composite(
      onto.Score(inferred, d.specialties),
      ProximityScore(p.city, p.pincode, d.city, d.pincode),
      if Yoe(d) in norm then norm[Yoe(d)] else 0.0,
      LanguageScore(p.languages, d.languages))
  }

  lemma ScoreOfBounds(onto: SpecialtyOntology, inferred: seq<string>, p: Patient, norm: map<int, real>, d: DoctorRecord)
    requires Yoe(d) in norm ==> 0.0 <= norm[Yoe(d)] <= 1.0
    ensures 0.0 <= ScoreOf(onto, inferred, p, norm, d) <= 1.0
  {
    var spec := onto.Score(inferred, d.specialties);
    var prox := ProximityScore(p.city, p.pincode, d.city, d.pincode);
    var y := if Yoe(d) in norm then norm[Yoe(d)] else 0.0;
    var lang := LanguageScore(p.languages, d.languages);
    assert 0.0 <= spec <= 1.0 && 0.0 <= prox <= 1.0 && 0.0 <= y <= 1.0 && 0.0 <= lang <= 1.0;
    CompositeBounds(spec, prox, y, lang);
  }

  /** The retrieval similarity of a doctor, 0.0 for an id without one. */
  function SimOf(idToSim: map<int, real>, pk: int): real {
    if pk in idToSim then idToSim[pk] else 0.0
  }

  /** The entry `rerank` appends for doctor `d`. */
  function Scored(onto: SpecialtyOntology, inferred: seq<string>, p: Patient, norm: map<int, real>, idToSim: map<int, real>, d: DoctorRecord): Ranked {
    Ranked(d, ScoreOf(onto, inferred, p, norm, d), SimOf(idToSim, d.pk))
  }

  /** `out` before the sort: one entry per doctor, in input order. */
  function ScoredList(onto: SpecialtyOntology, inferred: seq<string>, p: Patient, ds: seq<DoctorRecord>, idToSim: map<int, real>): (out: seq<Ranked>)
    ensures |out| == |ds|
    ensures forall i :: 0 <= i < |ds| ==>
      out[i] == Scored(onto, inferred, p, NormYoe(YoeValues(ds)), idToSim, ds[i])
  {
    var norm := NormYoe(YoeValues(ds));
    seq(|ds|, i requires 0 <= i < |ds| => Scored(onto, inferred, p, norm, idToSim, ds[i]))
  }

  lemma ScoredListIs(onto: SpecialtyOntology, inferred: seq<string>, p: Patient, ds: seq<DoctorRecord>, idToSim: map<int, real>, out: seq<Ranked>)
    requires |out| == |ds|
    requires forall k :: 0 <= k < |ds| ==>
      out[k] == Scored(onto, inferred, p, NormYoe(YoeValues(ds)), idToSim, ds[k])
    ensures out == ScoredList(onto, inferred, p, ds, idToSim)
  {
  }

  /** Places `x` after every entry whose score is at least its own. */
  function InsertDesc(x: Ranked, s: seq<Ranked>): (r: seq<Ranked>)
    ensures multiset(r) == multiset(s) + multiset{x}
  {
    if s == [] then [x]
    else if s[0].score >= x.score then
      assert s == [s[0]] + s[1..];
      [s[0]] + InsertDesc(x, s[1..])
    else [x] + s
  }

  /**
   * The descending sort by score: Python's sort is stable also when
   * reversed, which this insertion of each entry in turn reproduces.
   */
  function SortDesc(s: seq<Ranked>): seq<Ranked> {
    if s == [] then [] else InsertDesc(s[|s| - 1], SortDesc(s[..|s| - 1]))
  }

  ghost predicate NonIncreasing(s: seq<Ranked>) {
    forall i, j :: 0 <= i < j < |s| ==> s[i].score >= s[j].score
  }

  /** The entries with score `v`, in order. */
  function WithScore(s: seq<Ranked>, v: real): seq<Ranked> {
    if s == [] then [] else WithScore(s[..|s| - 1], v) + (if s[|s| - 1].score == v then [s[|s| - 1]] else [])
  }

  lemma ConsSorted(a: Ranked, t: seq<Ranked>)
    requires NonIncreasing(t)
    requires t != [] ==> a.score >= t[0].score
    ensures NonIncreasing([a] + t)
  {
    var r := [a] + t;
    forall i, j | 0 <= i < j < |r| ensures r[i].score >= r[j].score {
      if i == 0 && j > 1 {
        assert r[j] == t[j - 1] && t[0] == r[1];
      }
    }
  }

  lemma {:induction false} InsertDescSorted(x: Ranked, s: seq<Ranked>)
    requires NonIncreasing(s)
    ensures NonIncreasing(InsertDesc(x, s))
    ensures InsertDesc(x, s) != [] && InsertDesc(x, s)[0] == if s != [] && s[0].score >= x.score then s[0] else x
  {
    if s == [] {
    } else if s[0].score >= x.score {
      var u := s[1..];
      assert NonIncreasing(u);
      InsertDescSorted(x, u);
      var t := InsertDesc(x, u);
      assert InsertDesc(x, s) == [s[0]] + t;
      assert u != [] ==> u[0] == s[1];
      ConsSorted(s[0], t);
    } else {
      assert InsertDesc(x, s) == [x] + s;
      ConsSorted(x, s);
    }
  }

  /** The sort orders by score, highest first. */
  lemma {:induction false} SortDescSorted(s: seq<Ranked>)
    ensures NonIncreasing(SortDesc(s))
  {
    if s != [] {
      SortDescSorted(s[..|s| - 1]);
      InsertDescSorted(s[|s| - 1], SortDesc(s[..|s| - 1]));
    }
  }

  /** The sort is a permutation: every input entry exactly once. */
  lemma {:induction false} SortDescPermutes(s: seq<Ranked>)
    ensures multiset(SortDesc(s)) == multiset(s)
  {
    if s != [] {
      SortDescPermutes(s[..|s| - 1]);
      assert s == s[..|s| - 1] + [s[|s| - 1]];
    }
  }

  lemma {:induction false} WithScoreConcat(a: seq<Ranked>, b: seq<Ranked>, v: real)
    ensures WithScore(a + b, v) == WithScore(a, v) + WithScore(b, v)
    decreases |b|
  {
    if b == [] {
      assert a + b == a;
    } else {
      assert (a + b)[..|a + b| - 1] == a + b[..|b| - 1];
      WithScoreConcat(a, b[..|b| - 1], v);
    }
  }

  lemma {:induction false} WithScoreNone(s: seq<Ranked>, v: real)
    requires forall i :: 0 <= i < |s| ==> s[i].score != v
    ensures WithScore(s, v) == []
  {
    if s != [] {
      WithScoreNone(s[..|s| - 1], v);
    }
  }

  lemma ConcatAssoc(a: seq<Ranked>, b: seq<Ranked>, c: seq<Ranked>)
    ensures a + (b + c) == (a + b) + c
  {
    assert |a + (b + c)| == |(a + b) + c|;
    forall i | 0 <= i < |a| + |b| + |c| ensures (a + (b + c))[i] == ((a + b) + c)[i] {
    }
  }

  lemma WithScoreSingle(x: Ranked, v: real)
    ensures WithScore([x], v) == if x.score == v then [x] else []
  {
    assert [x][..0] == [];
  }

  lemma {:induction false} InsertDescStable(x: Ranked, s: seq<Ranked>, v: real)
    requires NonIncreasing(s)
    ensures WithScore(InsertDesc(x, s), v) == WithScore(s, v) + WithScore([x], v)
  {
    var wx := WithScore([x], v);
    WithScoreSingle(x, v);
    if s == [] {
      assert InsertDesc(x, s) == [x];
    } else if s[0].score >= x.score {
      var t := s[1..];
      assert NonIncreasing(t);
      InsertDescStable(x, t, v);
      assert InsertDesc(x, s) == [s[0]] + InsertDesc(x, t);
      WithScoreConcat([s[0]], InsertDesc(x, t), v);
      assert s == [s[0]] + t;
      WithScoreConcat([s[0]], t, v);
      calc {
        WithScore(InsertDesc(x, s), v);
        WithScore([s[0]], v) + WithScore(InsertDesc(x, t), v);
        WithScore([s[0]], v) + (WithScore(t, v) + wx);
        { ConcatAssoc(WithScore([s[0]], v), WithScore(t, v), wx); }
        (WithScore([s[0]], v) + WithScore(t, v)) + wx;
        WithScore(s, v) + wx;
      }
    } else {
      assert InsertDesc(x, s) == [x] + s;
      InsertFrontStable(x, s, v);
    }
  }

  /** Putting `x` in front of entries that all score lower keeps every score's order. */
  lemma InsertFrontStable(x: Ranked, s: seq<Ranked>, v: real)
    requires NonIncreasing(s) && s != [] && x.score > s[0].score
    ensures WithScore([x] + s, v) == WithScore(s, v) + WithScore([x], v)
  {
    var wx := WithScore([x], v);
    WithScoreSingle(x, v);
    WithScoreConcat([x], s, v);
    if x.score == v {
      WithScoreNone(s, v);
      assert WithScore([x] + s, v) == wx == WithScore(s, v) + wx;
    } else {
      assert WithScore([x] + s, v) == WithScore(s, v) == WithScore(s, v) + wx;
    }
  }

  /** The sort is stable: the entries of any one score keep their input order. */
  lemma {:induction false} SortDescStable(s: seq<Ranked>, v: real)
    ensures WithScore(SortDesc(s), v) == WithScore(s, v)
  {
    if s != [] {
      var init := s[..|s| - 1];
      var last := s[|s| - 1];
      SortDescStable(init, v);
      SortDescSorted(init);
      InsertDescStable(last, SortDesc(init), v);
    }
  }

  /**
   * `rerank`: infers the patient's labels once, normalises the candidates'
   * experience over the candidate set, scores every doctor and sorts.
   */
  method Rerank(onto: SpecialtyOntology, p: Patient, ds: seq<DoctorRecord>, idToSim: map<int, real>) returns (out: seq<Ranked>)
    ensures out == SortDesc(ScoredList(onto, onto.Inferred(p.symptoms, p.history), p, ds, idToSim))
  {
    var inferred := onto.InferFromText(p.symptoms, p.history);
    out := ScoreCandidates(onto, inferred, p, ds, idToSim);
    out := SortDesc(out);
  }

  /** The loop of `rerank` that builds `out`, one entry per doctor in input order. */
  method ScoreCandidates(onto: SpecialtyOntology, inferred: seq<string>, p: Patient, ds: seq<DoctorRecord>, idToSim: map<int, real>) returns (out: seq<Ranked>)
    ensures out == ScoredList(onto, inferred, p, ds, idToSim)
  {
    var yValues := YoeValues(ds);
    var yNorm := NormYoe(yValues);
    out := [];
    for i := 0 to |ds|
      invariant |out| == i
      invariant forall k :: 0 <= k < i ==> out[k] == Scored(onto, inferred, p, yNorm, idToSim, ds[k])
    {
      var d := ds[i];
      var spec := onto.Score(inferred, d.specialties);
      var prox := ProximityScore(p.city, p.pincode, d.city, d.pincode);
      var yoeRaw := Yoe(d);
      var y := if yoeRaw in yNorm then yNorm[yoeRaw] else 0.0;
      var lang := LanguageScore(p.languages, d.languages);
      var score := Composite(spec, prox, y, lang);
      var entry := Ranked(d, score, SimOf(idToSim, d.pk));
      assert entry == Scored(onto, inferred, p, yNorm, idToSim, d);
      out := out + [entry];
    }
    ScoredListIs(onto, inferred, p, ds, idToSim, out);
  }

  /**
   * The reranked list holds every candidate exactly once, highest score first,
   * with ties in input order.
   */
  lemma RerankIsStableSort(onto: SpecialtyOntology, inferred: seq<string>, p: Patient, ds: seq<DoctorRecord>, idToSim: map<int, real>, v: real)
    ensures var out := SortDesc(ScoredList(onto, inferred, p, ds, idToSim));
      && |out| == |ds|
      && multiset(out) == multiset(ScoredList(onto, inferred, p, ds, idToSim))
      && NonIncreasing(out)
      && WithScore(out, v) == WithScore(ScoredList(onto, inferred, p, ds, idToSim), v)
  {
    var s := ScoredList(onto, inferred, p, ds, idToSim);
    var out := SortDesc(s);
    SortDescPermutes(s);
    SortDescSorted(s);
    SortDescStable(s, v);
    assert |out| == |multiset(out)| == |multiset(s)| == |s|;
  }

  /**
   * Every reranked entry is one of the candidates, scored in [0, 1], and
   * carries its id's retrieval similarity (0.0 when there is none).
   */
  lemma RerankEntries(onto: SpecialtyOntology, inferred: seq<string>, p: Patient, ds: seq<DoctorRecord>, idToSim: map<int, real>)
    ensures forall r :: r in SortDesc(ScoredList(onto, inferred, p, ds, idToSim)) ==>
      0.0 <= r.score <= 1.0 && r.faissSim == SimOf(idToSim, r.doctor.pk) && r.doctor in ds
  {
    var s := ScoredList(onto, inferred, p, ds, idToSim);
    var out := SortDesc(s);
    SortDescPermutes(s);
    var norm := NormYoe(YoeValues(ds));
    forall r | r in out ensures 0.0 <= r.score <= 1.0 && r.faissSim == SimOf(idToSim, r.doctor.pk) && r.doctor in ds {
      assert r in multiset(s);
      var i :| 0 <= i < |s| && s[i] == r;
      var d := ds[i];
      assert Yoe(d) in YoeValues(ds) by {
        assert YoeValues(ds)[i] == Yoe(d);
      }
      NormYoeInUnit(YoeValues(ds), Yoe(d));
      ScoreOfBounds(onto, inferred, p, norm, d);
    }
  }

  /** The two lists agree position by position on everything but the retrieval similarity. */
  ghost predicate SameButSim(a: seq<Ranked>, b: seq<Ranked>) {
    |a| == |b| && forall i :: 0 <= i < |a| ==> a[i].doctor == b[i].doctor && a[i].score == b[i].score
  }

  lemma {:induction false} InsertDescIgnoresSim(x: Ranked, y: Ranked, s: seq<Ranked>, t: seq<Ranked>)
    requires x.doctor == y.doctor && x.score == y.score && SameButSim(s, t)
    ensures SameButSim(InsertDesc(x, s), InsertDesc(y, t))
  {
    if s == [] {
    } else if s[0].score >= x.score {
      var s', t' := s[1..], t[1..];
      assert SameButSim(s', t') by {
        forall i | 0 <= i < |s'| ensures s'[i].doctor == t'[i].doctor && s'[i].score == t'[i].score {
          assert s'[i] == s[i + 1] && t'[i] == t[i + 1];
        }
      }
      InsertDescIgnoresSim(x, y, s', t');
      assert InsertDesc(x, s) == [s[0]] + InsertDesc(x, s');
      assert InsertDesc(y, t) == [t[0]] + InsertDesc(y, t');
      ConsSameButSim(s[0], t[0], InsertDesc(x, s'), InsertDesc(y, t'));
    } else {
      assert InsertDesc(x, s) == [x] + s && InsertDesc(y, t) == [y] + t;
      ConsSameButSim(x, y, s, t);
    }
  }

  lemma ConsSameButSim(x: Ranked, y: Ranked, s: seq<Ranked>, t: seq<Ranked>)
    requires x.doctor == y.doctor && x.score == y.score && SameButSim(s, t)
    ensures SameButSim([x] + s, [y] + t)
  {
    var a, b := [x] + s, [y] + t;
    forall i | 0 <= i < |a| ensures a[i].doctor == b[i].doctor && a[i].score == b[i].score {
      if i > 0 {
        assert a[i] == s[i - 1] && b[i] == t[i - 1];
      }
    }
  }

  /** The sort's order depends on the doctors and scores only. */
  lemma {:induction false} SortDescIgnoresSim(s: seq<Ranked>, t: seq<Ranked>)
    requires SameButSim(s, t)
    ensures SameButSim(SortDesc(s), SortDesc(t))
  {
    if s != [] {
      var n := |s| - 1;
      assert SameButSim(s[..n], t[..n]);
      SortDescIgnoresSim(s[..n], t[..n]);
      InsertDescIgnoresSim(s[n], t[n], SortDesc(s[..n]), SortDesc(t[..n]));
    }
  }

  /** The retrieval similarities are carried along but never enter the score or the order. */
  lemma RerankIgnoresSimilarity(onto: SpecialtyOntology, inferred: seq<string>, p: Patient, ds: seq<DoctorRecord>, sims1: map<int, real>, sims2: map<int, real>)
    ensures forall i :: 0 <= i < |ds| ==>
      ScoredList(onto, inferred, p, ds, sims1)[i].score == ScoredList(onto, inferred, p, ds, sims2)[i].score
    ensures var o1 := SortDesc(ScoredList(onto, inferred, p, ds, sims1));
      var o2 := SortDesc(ScoredList(onto, inferred, p, ds, sims2));
      |o1| == |o2| == |ds| && forall i :: 0 <= i < |ds| ==> o1[i].doctor == o2[i].doctor && o1[i].score == o2[i].score
  {
    var l1 := ScoredList(onto, inferred, p, ds, sims1);
    var l2 := ScoredList(onto, inferred, p, ds, sims2);
    assert SameButSim(l1, l2);
    SortDescIgnoresSim(l1, l2);
    SortDescPermutes(l1);
    assert |SortDesc(l1)| == |multiset(SortDesc(l1))| == |l1|;
  }

  /** No two entries are for the same doctor id. */
  ghost predicate DistinctDoctors(s: seq<Ranked>) {
    forall i, j :: 0 <= i < j < |s| ==> s[i].doctor.pk != s[j].doctor.pk
  }

  lemma ConsDistinct(a: Ranked, t: seq<Ranked>)
    requires DistinctDoctors(t) && forall y :: y in t ==> y.doctor.pk != a.doctor.pk
    ensures DistinctDoctors([a] + t)
  {
    var r := [a] + t;
    forall i, j | 0 <= i < j < |r| ensures r[i].doctor.pk != r[j].doctor.pk {
      assert r[j] == t[j - 1] && r[j] in t;
      if i > 0 {
        assert r[i] == t[i - 1];
      }
    }
  }

  lemma {:induction false} InsertDescDistinct(x: Ranked, s: seq<Ranked>)
    requires DistinctDoctors(s) && forall y :: y in s ==> y.doctor.pk != x.doctor.pk
    ensures DistinctDoctors(InsertDesc(x, s))
  {
    if s == [] {
    } else if s[0].score >= x.score {
      var u := s[1..];
      assert forall y :: y in u ==> y in s;
      assert DistinctDoctors(u);
      InsertDescDistinct(x, u);
      var t := InsertDesc(x, u);
      assert InsertDesc(x, s) == [s[0]] + t;
      forall y | y in t ensures y.doctor.pk != s[0].doctor.pk {
        assert y in multiset(u) + multiset{x};
        if y in u {
          var k :| 0 <= k < |u| && u[k] == y;
          assert s[k + 1] == y;
        }
      }
      ConsDistinct(s[0], t);
    } else {
      assert InsertDesc(x, s) == [x] + s;
      ConsDistinct(x, s);
    }
  }

  /** The sort keeps one entry per doctor id when the input has one. */
  lemma {:induction false} SortDescDistinct(s: seq<Ranked>)
    requires DistinctDoctors(s)
    ensures DistinctDoctors(SortDesc(s))
  {
    if s != [] {
      var n := |s| - 1;
      var init := s[..n];
      assert DistinctDoctors(init);
      SortDescDistinct(init);
      SortDescPermutes(init);
      forall y | y in SortDesc(init) ensures y.doctor.pk != s[n].doctor.pk {
        assert y in multiset(init);
        var k :| 0 <= k < |init| && init[k] == y;
        assert s[k] == y;
      }
      InsertDescDistinct(s[n], SortDesc(init));
    }
  }
}
