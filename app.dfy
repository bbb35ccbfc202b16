/**
 * The catalog side of the application object: the topic taxonomy, the
 * list-based topic-to-subject classifier, the per-subject file lists, the
 * Fisher-Yates shuffle and the synthetic-question generator used when a
 * topic's question file cannot be loaded. `Math.random` is replaced by draws
 * the caller passes in.
 */
module App {
  import opened Common
  import Text

  /** A group of topics inside a subject (display names and icons are not modelled). */
  datatype Group = Group(id: string, topics: seq<string>)

  /** One subject of `getSubjects`: its display name and its groups. */
  datatype SubjectEntry = SubjectEntry(name: string, groups: seq<Group>)

  /** The taxonomy `getSubjects` returns, topic ids in catalog order. */
  const Catalog: seq<SubjectEntry> := [AnatomyEntry, PhysiologyEntry, BiochemistryEntry]

  const AnatomyEntry := SubjectEntry("Anatomy", [
    Group("gross-anatomy", ["upper-limb", "lower-limb", "thorax", "abdomen", "head-neck", "neuroanatomy"]),
    Group("embryology", ["general-embryology", "system-embryology"]),
    Group("histology", ["epithelial-tissue", "connective-tissue", "muscle-tissue", "nervous-tissue", "organ-histology"])
  ])

  const PhysiologyEntry := SubjectEntry("Physiology", [
    Group("cardiovascular", ["cardiac-physiology", "vascular-physiology"]),
    Group("renal", ["glomerular-function", "tubular-function"]),
    Group("respiratory", ["ventilation", "gas-exchange"]),
    Group("neurophysiology", ["cns-physiology", "pns-physiology"])
  ])

  const BiochemistryEntry := SubjectEntry("Biochemistry", [
    Group("metabolism", ["carbohydrate-met", "lipid-metabolism", "protein-metabolism", "nucleic-acid-met"]),
    Group("molecular-biology", ["dna-replication", "transcription", "translation", "genetic-regulation"]),
    Group("clinical-biochem", ["lab-values", "disease-markers", "metabolic-disorders"])
  ])

  const AnatomyTopics: seq<string> := [
    "upper-limb", "lower-limb", "thorax", "abdomen", "head-neck", "neuroanatomy",
    "gross-anatomy", "embryology", "general-embryology", "system-embryology",
    "histology", "epithelial-tissue", "connective-tissue", "muscle-tissue",
    "nervous-tissue", "organ-histology"
  ]

  const PhysiologyTopics: seq<string> := [
    "cardiovascular", "cardiac-physiology", "vascular-physiology",
    "renal", "glomerular-function", "tubular-function",
    "respiratory", "ventilation", "gas-exchange",
    "neurophysiology", "cns-physiology", "pns-physiology",
    "endocrine", "hormones", "endocrine-organs",
    "gastrointestinal", "digestion", "absorption",
    "special-senses"
  ]

  const BiochemistryTopics: seq<string> := [
    "metabolism", "carbohydrate-met", "lipid-metabolism",
    "protein-metabolism", "nucleic-acid-met",
    "molecular-biology", "dna-replication", "transcription",
    "translation", "genetic-regulation",
    "clinical-biochem", "lab-values", "disease-markers",
    "metabolic-disorders", "enzymology", "enzyme-kinetics",
    "enzyme-regulation", "nutrition", "vitamins-minerals"
  ]

  /** The enumerated topic list of a subject. */
  function TopicsOf(s: Subject): seq<string>
  {
    match s
    case Anatomy => AnatomyTopics
    case Physiology => PhysiologyTopics
    case Biochemistry => BiochemistryTopics
  }

  /** No topic id is listed under two subjects. */
  lemma TopicListsDisjoint()
    ensures Disjoint(AnatomyTopics, PhysiologyTopics) && Disjoint(AnatomyTopics, BiochemistryTopics)
    ensures Disjoint(PhysiologyTopics, BiochemistryTopics)
  {
    AnatomyNotPhysiology();
    AnatomyNotBiochemistry();
    PhysiologyNotBiochemistry();
  }

  /** No topic of `xs` is in `ys`. */
  predicate Disjoint(xs: seq<string>, ys: seq<string>)
  {
    forall t :: t in xs ==> t !in ys
  }

  /** None of the topics of `xs` at the positions from `lo` up to `hi` is in `ys`. */
  predicate RangeDisjoint(xs: seq<string>, ys: seq<string>, lo: nat, hi: nat)
    requires hi <= |xs|
  {
    forall i :: lo <= i < hi ==> xs[i] !in ys
  }

  /** A list is disjoint from another when both its head and its tail are. */
  lemma DisjointBySplit(xs: seq<string>, ys: seq<string>, n: nat)
    requires n <= |xs|
    requires RangeDisjoint(xs, ys, 0, n) && RangeDisjoint(xs, ys, n, |xs|)
    ensures Disjoint(xs, ys)
  {
  }

  lemma AnatomyNotPhysiology()
    ensures Disjoint(AnatomyTopics, PhysiologyTopics)
  {
    AnatomyHeadNotPhysiology();
    AnatomyTailNotPhysiology();
    DisjointBySplit(AnatomyTopics, PhysiologyTopics, 8);
  }

  lemma AnatomyHeadNotPhysiology()
    ensures RangeDisjoint(AnatomyTopics, PhysiologyTopics, 0, 8)
  {
  }

  lemma AnatomyTailNotPhysiology()
    ensures RangeDisjoint(AnatomyTopics, PhysiologyTopics, 8, |AnatomyTopics|)
  {
  }

  lemma AnatomyNotBiochemistry()
    ensures Disjoint(AnatomyTopics, BiochemistryTopics)
  {
    AnatomyHeadNotBiochemistry();
    AnatomyTailNotBiochemistry();
    DisjointBySplit(AnatomyTopics, BiochemistryTopics, 8);
  }

  lemma AnatomyHeadNotBiochemistry()
    ensures RangeDisjoint(AnatomyTopics, BiochemistryTopics, 0, 8)
  {
  }

  lemma AnatomyTailNotBiochemistry()
    ensures RangeDisjoint(AnatomyTopics, BiochemistryTopics, 8, |AnatomyTopics|)
  {
  }

  lemma PhysiologyNotBiochemistry()
    ensures Disjoint(PhysiologyTopics, BiochemistryTopics)
  {
    PhysiologyHeadNotBiochemistry();
    PhysiologyTailNotBiochemistry();
    DisjointBySplit(PhysiologyTopics, BiochemistryTopics, 10);
  }

  lemma PhysiologyHeadNotBiochemistry()
    ensures RangeDisjoint(PhysiologyTopics, BiochemistryTopics, 0, 10)
  {
  }

  lemma PhysiologyTailNotBiochemistry()
    ensures RangeDisjoint(PhysiologyTopics, BiochemistryTopics, 10, |PhysiologyTopics|)
  {
  }

  /**
   * `getSubjectFromTopic` of the application object: the subject whose list
   * holds the id, or None (the source's `null`, with a warning) when no list does.
   */
  function SubjectFromTopic(topicId: string): (r: Option<Subject>)
    ensures forall s :: r == Some(s) <==> topicId in TopicsOf(s)
    ensures r == None <==> forall s :: topicId !in TopicsOf(s)
  {
    TopicListsDisjoint();
    if topicId in AnatomyTopics then Some(Anatomy)
    else if topicId in PhysiologyTopics then Some(Physiology)
    else if topicId in BiochemistryTopics then Some(Biochemistry)
    else None
  }

  /** The topic ids listed under the `i`-th catalog subject. */
  predicate ListedUnder(i: nat, t: string)
    requires i < |Catalog|
  {
    exists g :: g in Catalog[i].groups && t in g.topics
  }

  /** The subjects in the order the catalog lists them. */
  const CatalogSubjects: seq<Subject> := [Anatomy, Physiology, Biochemistry]

  /** The `i`-th catalog entry is named after the `i`-th subject: its key, capitalised. */
  lemma CatalogNames(i: nat)
    requires i < |Catalog|
    ensures Catalog[i].name == Text.Capitalize(CatalogSubjects[i].Key())
  {
    match i
    case 0 =>
      assert Catalog[0].name == "Anatomy";
      assert Text.Capitalize("anatomy") == "Anatomy";
    case 1 =>
      assert Catalog[1].name == "Physiology";
      assert Text.Capitalize("physiology") == "Physiology";
    case 2 =>
      assert Catalog[2].name == "Biochemistry";
      assert Text.Capitalize("biochemistry") == "Biochemistry";
  }

  /**
   * Every topic the catalog lists under its `i`-th subject is classified, by
   * the list classifier, as that subject.
   */
  lemma CatalogClassifiesAsItsSubject(i: nat, t: string)
    requires i < |Catalog| && ListedUnder(i, t)
    ensures SubjectFromTopic(t) == Some(CatalogSubjects[i])
  {
    match i
    case 0 => AnatomyCatalogListed();
    case 1 => PhysiologyCatalogListed();
    case 2 => BiochemistryCatalogListed();
  }

  lemma AnatomyCatalogListed()
    ensures forall t :: ListedUnder(0, t) ==> t in AnatomyTopics
  {
  }

  lemma PhysiologyCatalogListed()
    ensures forall t :: ListedUnder(1, t) ==> t in PhysiologyTopics
  {
  }

  lemma BiochemistryCatalogListed()
    ensures forall t :: ListedUnder(2, t) ==> t in BiochemistryTopics
  {
  }

  const AnatomyFiles: seq<string> := [
    "gross-anatomy.json", "upper-limb.json", "lower-limb.json",
    "thorax.json", "abdomen.json", "head-neck.json", "neuroanatomy.json",
    "embryology.json", "general-embryology.json", "system-embryology.json",
    "histology.json", "epithelial-tissue.json", "connective-tissue.json",
    "muscle-tissue.json", "nervous-tissue.json", "organ-histology.json"
  ]

  const PhysiologyFiles: seq<string> := [
    "cardiovascular.json", "cardiac-physiology.json", "vascular-physiology.json",
    "renal.json", "glomerular-function.json", "tubular-function.json",
    "respiratory.json", "ventilation.json", "gas-exchange.json",
    "neurophysiology.json", "cns-physiology.json", "pns-physiology.json",
    "endocrine.json", "hormones.json", "endocrine-organs.json",
    "gastrointestinal.json", "digestion.json", "absorption.json",
    "special-senses.json"
  ]

  const BiochemistryFiles: seq<string> := [
    "metabolism.json", "carbohydrate-met.json", "lipid-metabolism.json",
    "protein-metabolism.json", "nucleic-acid-met.json",
    "molecular-biology.json", "dna-replication.json", "transcription.json",
    "translation.json", "genetic-regulation.json",
    "clinical-biochem.json", "lab-values.json", "disease-markers.json",
    "metabolic-disorders.json", "enzymology.json", "enzyme-kinetics.json",
    "enzyme-regulation.json", "nutrition.json", "vitamins-minerals.json"
  ]

  /** `getSubjectFiles`: the question files of a subject key, or none for any other key. */
  function SubjectFiles(subject: string): (files: seq<string>)
    ensures subject !in {"anatomy", "physiology", "biochemistry"} ==> files == []
    ensures forall s: Subject :: subject == s.Key() ==> |files| == |TopicsOf(s)|
  {
    if subject == "anatomy" then AnatomyFiles
    else if subject == "physiology" then PhysiologyFiles
    else if subject == "biochemistry" then BiochemistryFiles
    else []
  }

  /** `s` with the elements at `i` and `j` exchanged. */
  function Swap<T>(s: seq<T>, i: nat, j: nat): (r: seq<T>)
    requires i < |s| && j < |s|
    ensures |r| == |s|
  {
    s[i := s[j]][j := s[i]]
  }

  lemma SwapPermutes<T>(s: seq<T>, i: nat, j: nat)
    requires i < |s| && j < |s|
    ensures multiset(Swap(s, i, j)) == multiset(s)
  {
    var t := s[i := s[j]];
    assert t[j] == s[j];
    assert multiset(t) == multiset(s) - multiset{s[i]} + multiset{s[j]};
    assert multiset(t[j := s[i]]) == multiset(t) - multiset{s[j]} + multiset{s[i]};
  }

  /** `picks[i]` is the index drawn for position `i`: `Math.floor(Math.random() * (i + 1))`. */
  predicate ValidPicks(picks: seq<nat>, n: nat)
  {
    |picks| == n && forall i :: 0 < i < n ==> picks[i] <= i
  }

  /**
   * Fisher-Yates on positions `i` down to 1: swap position `i` with
   * `picks[i]`, then continue with `i - 1`.
   */
  function ShuffleDown<T>(s: seq<T>, picks: seq<nat>, i: int): (r: seq<T>)
    requires ValidPicks(picks, |s|) && i < |s|
    ensures |r| == |s|
    decreases i
  {
    if i <= 0 then s else ShuffleDown(Swap(s, i, picks[i]), picks, i - 1)
  }

  /** The whole shuffle, starting from the last position. */
  function Shuffled<T>(s: seq<T>, picks: seq<nat>): (r: seq<T>)
    requires ValidPicks(picks, |s|)
  {
    ShuffleDown(s, picks, |s| - 1)
  }

  /** Whatever indices are drawn, the shuffle only reorders its input. */
  lemma {:induction false} ShuffleDownPermutes<T>(s: seq<T>, picks: seq<nat>, i: int)
    requires ValidPicks(picks, |s|) && i < |s|
    ensures multiset(ShuffleDown(s, picks, i)) == multiset(s)
    decreases i
  {
    if i > 0 {
      SwapPermutes(s, i, picks[i]);
      ShuffleDownPermutes(Swap(s, i, picks[i]), picks, i - 1);
    }
  }

  lemma ShuffledPermutes<T>(s: seq<T>, picks: seq<nat>)
    requires ValidPicks(picks, |s|)
    ensures |Shuffled(s, picks)| == |s|
    ensures multiset(Shuffled(s, picks)) == multiset(s)
  {
    ShuffleDownPermutes(s, picks, |s| - 1);
  }

  /**
   * `shuffleArray`: Fisher-Yates in place, from the last index down to 1,
   * with the random index of each step taken from `picks`.
   */
  method ShuffleArray<T>(a: array<T>, picks: seq<nat>)
    requires ValidPicks(picks, a.Length)
    modifies a
    ensures a[..] == Shuffled(old(a[..]), picks)
    ensures multiset(a[..]) == multiset(old(a[..]))
  {
    var i := a.Length - 1;
    while i > 0
      invariant i < a.Length
      invariant ShuffleDown(a[..], picks, i) == Shuffled(old(a[..]), picks)
      decreases i
    {
      var j := picks[i];
      ghost var before := a[..];
      a[i], a[j] := a[j], a[i];
      assert a[..] == Swap(before, i, j);
      i := i - 1;
    }
    ShuffledPermutes(old(a[..]), picks);
  }

  /** The question `generateSampleQuestions` makes as its `i`-th (counting from 1). */
  function SampleQuestion(topic: string, i: nat, difficulty: Difficulty): Question
  {
    var n := Text.NatToString(i);
    var topicName := Text.FormatTopicName(topic);
    Question(topic + "-" + n, SampleText(n, topicName), SampleOptions(n), 0,
      SampleExplanation(n, topicName), topic, difficulty)
  }

  function SampleText(n: string, topicName: string): string
  {
    "Sample question " + n + " about " + topicName + "?"
  }

  /** The four options of a sample question; the first is the correct one. */
  function SampleOptions(n: string): (options: seq<string>)
    ensures |options| == 4
  {
    [ "Correct answer for question " + n,
      "Incorrect option A for question " + n,
      "Incorrect option B for question " + n,
      "Incorrect option C for question " + n ]
  }

  const ExplanationTail: string := ". In a real application, this would contain detailed information about why the correct answer is right and why the others are wrong."

  function SampleExplanation(n: string, topicName: string): string
  {
    "This is a sample explanation for question " + n + " about " + topicName
      + ExplanationTail
  }

  lemma SampleQuestionFields(topic: string, i: nat, d: Difficulty)
    ensures SampleQuestion(topic, i, d).id == topic + "-" + Text.NatToString(i)
    ensures |SampleQuestion(topic, i, d).options| == 4
  {
  }

  /** Sample questions of one topic never share an id. */
  lemma SampleIdsDistinct(topic: string, i: nat, j: nat, d: Difficulty, e: Difficulty)
    requires i != j
    ensures SampleQuestion(topic, i, d).id != SampleQuestion(topic, j, e).id
  {
    var p := topic + "-";
    var a, b := Text.NatToString(i), Text.NatToString(j);
    if p + a == p + b {
      assert a == (p + a)[|p|..] == (p + b)[|p|..] == b;
      Text.NatToStringInjective(i, j);
    }
  }

  /**
   * `generateSampleQuestions(topic, count)`: `count` questions, the `k`-th
   * (from 1) built from `k` and the difficulty drawn for it.
   */
  method GenerateSampleQuestions(topic: string, count: nat, difficulties: seq<Difficulty>)
    returns (questions: seq<Question>)
    requires |difficulties| == count
    ensures |questions| == count
    ensures forall k :: 0 <= k < count ==> questions[k] == SampleQuestion(topic, k + 1, difficulties[k])
  {
    questions := [];
    var i := 1;
    while i <= count
      invariant 1 <= i <= count + 1
      invariant |questions| == i - 1
      invariant forall k :: 0 <= k < i - 1 ==> questions[k] == SampleQuestion(topic, k + 1, difficulties[k])
    {
      questions := questions + [SampleQuestion(topic, i, difficulties[i - 1])];
      i := i + 1;
    }
  }

  /**
   * What the generator promises: question `k` (from 1) has the id `topic-k`,
   * four options, the first one correct, and the requested topic; no two
   * questions share an id.
   */
  lemma SampleQuestionsWellFormed(topic: string, difficulties: seq<Difficulty>, questions: seq<Question>)
    requires |questions| == |difficulties|
    requires forall k :: 0 <= k < |questions| ==> questions[k] == SampleQuestion(topic, k + 1, difficulties[k])
    ensures forall k :: 0 <= k < |questions| ==>
      && questions[k].id == topic + "-" + Text.NatToString(k + 1)
      && |questions[k].options| == 4
      && questions[k].correctAnswer == 0
      && questions[k].topic == topic
      && questions[k].difficulty == difficulties[k]
    ensures forall k, m :: 0 <= k < m < |questions| ==> questions[k].id != questions[m].id
  {
    forall k | 0 <= k < |questions|
      ensures questions[k].id == topic + "-" + Text.NatToString(k + 1)
      ensures |questions[k].options| == 4
    {
      SampleQuestionFields(topic, k + 1, difficulties[k]);
    }
    forall k, m | 0 <= k < m < |questions| ensures questions[k].id != questions[m].id {
      SampleIdsDistinct(topic, k + 1, m + 1, difficulties[k], difficulties[m]);
    }
  }
}
