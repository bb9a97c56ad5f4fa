/** The topic taxonomy: six fixed categories of topics, each with a content-safety
    rating; a reverse index from topic to category; a validator that splits a list
    of topics into known and unknown ones; and the overall rating of a topic list. */
module TopicTaxonomy {
  import opened PyStrings
  import opened PyValues

  // ---------------------------------------------------------------------
  // Ratings
  // ---------------------------------------------------------------------

  /** Content-safety ratings. The code compares them by their string values. */
  datatype SafetyCategory = G | PG | PG_13 | R | AdultContent

  function LevelValue(c: SafetyCategory): string {
    match c
    case G => "G"
    case PG => "PG"
    case PG_13 => "PG_13"
    case R => "R"
    case AdultContent => "adult_content"
  }

  /** The intended severity order, from general audiences to adult content. */
  function Rank(c: SafetyCategory): nat {
    match c
    case G => 0
    case PG => 1
    case PG_13 => 2
    case R => 3
    case AdultContent => 4
  }

  /** Comparing the string values orders the five ratings by severity, and no two
      ratings share a value. */
  lemma LevelOrder(a: SafetyCategory, b: SafetyCategory)
    ensures StrLess(LevelValue(a), LevelValue(b)) <==> Rank(a) < Rank(b)
    ensures LevelValue(a) == LevelValue(b) <==> a == b
  {
    var u, v := LevelValue(a), LevelValue(b);
    assert u[0] != v[0] || a == b || (a.PG? && b.PG_13?) || (a.PG_13? && b.PG?);
    if a.PG? && b.PG_13? {
      assert u == "PG" && v == "PG_13";
      assert StrLess(u[2..], v[2..]);
    } else if a.PG_13? && b.PG? {
      assert !StrLess(u[1..][1..], v[1..][1..]);
    } else if a == b {
      StrLessIrreflexive(u);
    }
  }

  // ---------------------------------------------------------------------
  // The table
  // ---------------------------------------------------------------------

  datatype TopicCategory = TopicCategory(
    name: string,
    topics: seq<string>,
    description: string,
    safetyLevel: SafetyCategory := G)

  const FinancialTopics: seq<string> :=
    ["payment", "transaction", "billing", "refund", "invoice", "banking", "credit", "loan"]
  const PrivacyTopics: seq<string> :=
    ["pii", "phi", "personal_data", "medical_record", "ssn", "credit_card", "address", "phone"]
  const HealthcareTopics: seq<string> :=
    ["medical", "healthcare", "patient", "diagnosis", "treatment", "prescription", "hospital"]
  const ContentSafetyTopics: seq<string> :=
    ["adult", "violence", "illegal", "hate_speech", "harassment", "discrimination"]
  const BusinessTopics: seq<string> :=
    ["recipe", "cooking", "automotive", "legal", "education", "travel", "entertainment"]
  const SystemTopics: seq<string> :=
    ["admin", "configuration", "deployment", "security", "database", "api", "infrastructure"]

  /** The category table, keyed by name, in its declared order. */
  const TopicCategories: seq<(string, TopicCategory)> := [
    ("financial", TopicCategory("financial", FinancialTopics,
      "Financial transactions and monetary operations", PG)),
    ("privacy", TopicCategory("privacy", PrivacyTopics,
      "Personal and private information", PG_13)),
    ("healthcare", TopicCategory("healthcare", HealthcareTopics,
      "Medical and healthcare related content", PG)),
    ("content_safety", TopicCategory("content_safety", ContentSafetyTopics,
      "Potentially harmful or inappropriate content", R)),
    ("business", TopicCategory("business", BusinessTopics,
      "General business and informational content", G)),
    ("system", TopicCategory("system", SystemTopics,
      "System administration and technical operations", PG_13))
  ]

  /** Some category of `cats` lists `t`. */
  predicate Listed(cats: seq<(string, TopicCategory)>, t: string) {
    exists k :: 0 <= k < |cats| && t in cats[k].1.topics
  }

  /** The category under `name`: its first binding, as a dict has only one. */
  function FindCategory(cats: seq<(string, TopicCategory)>, name: string): (r: Option<TopicCategory>)
    ensures r.Some? <==> exists k :: 0 <= k < |cats| && cats[k].0 == name
  {
    if |cats| == 0 then None
    else if cats[0].0 == name then Some(cats[0].1)
    else
      var r := FindCategory(cats[1..], name);
      assert forall k :: 1 <= k < |cats| ==> cats[k] == cats[1..][k - 1];
      r
  }

  lemma {:induction false} FindCategoryAt(cats: seq<(string, TopicCategory)>, name: string, k: nat)
    requires k < |cats| && cats[k].0 == name
    requires forall j :: 0 <= j < k ==> cats[j].0 != name
    ensures FindCategory(cats, name) == Some(cats[k].1)
  {
    if k > 0 {
      FindCategoryAt(cats[1..], name, k - 1);
    }
  }

  /** The table's six keys are distinct, and each is its category's own name. */
  lemma TableNames()
    ensures forall i, j :: 0 <= i < j < |TopicCategories| ==> TopicCategories[i].0 != TopicCategories[j].0
    ensures forall k :: 0 <= k < |TopicCategories| ==> TopicCategories[k].1.name == TopicCategories[k].0
  {
  }

  /** No topic is listed by two categories. */
  predicate TopicsDisjoint(cats: seq<(string, TopicCategory)>) {
    forall i, j, t :: 0 <= i < j < |cats| && t in cats[i].1.topics ==> t !in cats[j].1.topics
  }

  /** No topic is listed by two categories of the table. */
  lemma TableTopicsDisjoint()
    ensures TopicsDisjoint(TopicCategories)
  {
    var T := TopicCategories;
    assert T[0].1.topics == FinancialTopics && T[1].1.topics == PrivacyTopics;
    assert T[2].1.topics == HealthcareTopics && T[3].1.topics == ContentSafetyTopics;
    assert T[4].1.topics == BusinessTopics && T[5].1.topics == SystemTopics;
    FinancialApart();
    PrivacyApart();
    HealthcareApart();
    ContentSafetyApart();
    BusinessApart();
  }

  lemma FinancialApart()
    ensures forall t :: t in FinancialTopics ==>
      t !in PrivacyTopics && t !in HealthcareTopics && t !in ContentSafetyTopics
      && t !in BusinessTopics && t !in SystemTopics
  {
  }

  lemma PrivacyApart()
    ensures forall t :: t in PrivacyTopics ==>
      t !in HealthcareTopics && t !in ContentSafetyTopics && t !in BusinessTopics && t !in SystemTopics
  {
  }

  lemma HealthcareApart()
    ensures forall t :: t in HealthcareTopics ==>
      t !in ContentSafetyTopics && t !in BusinessTopics && t !in SystemTopics
  {
  }

  lemma ContentSafetyApart()
    ensures forall t :: t in ContentSafetyTopics ==> t !in BusinessTopics && t !in SystemTopics
  {
  }

  lemma BusinessApart()
    ensures forall t :: t in BusinessTopics ==> t !in SystemTopics
  {
  }

  // ---------------------------------------------------------------------
  // The reverse index
  // ---------------------------------------------------------------------

  /** `m` with every topic of `topics` sent to `name`. */
  function AddTopics(m: map<string, string>, topics: seq<string>, name: string): (r: map<string, string>)
    ensures forall t :: t in r <==> t in m || t in topics
    ensures forall t :: t in r ==> r[t] == (if t in topics then name else m[t])
  {
    if |topics| == 0 then m
    else
      var last := topics[|topics| - 1];
      assert forall t :: t in topics <==> t in topics[..|topics| - 1] || t == last;
      AddTopics(m, topics[..|topics| - 1], name)[last := name]
  }

  /** The reverse index built category by category: it holds exactly the listed topics. */
  function TopicMap(cats: seq<(string, TopicCategory)>): (r: map<string, string>)
    ensures forall t :: t in r <==> Listed(cats, t)
  {
    if |cats| == 0 then map[]
    else
      var init := cats[..|cats| - 1];
      assert forall k :: 0 <= k < |cats| - 1 ==> cats[k] == init[k];
      AddTopics(TopicMap(init), cats[|cats| - 1].1.topics, cats[|cats| - 1].0)
  }

  /** A topic is indexed under the last category that lists it. */
  lemma {:induction false} TopicMapAt(cats: seq<(string, TopicCategory)>, k: nat, t: string)
    requires k < |cats| && t in cats[k].1.topics
    requires forall j :: k < j < |cats| ==> t !in cats[j].1.topics
    ensures t in TopicMap(cats) && TopicMap(cats)[t] == cats[k].0
  {
    var init := cats[..|cats| - 1];
    if k < |cats| - 1 {
      assert init[k] == cats[k];
      TopicMapAt(init, k, t);
    }
  }

  /** When no topic is listed twice, every listed topic is indexed under its own category. */
  lemma DisjointTopicMap(cats: seq<(string, TopicCategory)>)
    requires TopicsDisjoint(cats)
    ensures forall k, t :: 0 <= k < |cats| && t in cats[k].1.topics ==>
      t in TopicMap(cats) && TopicMap(cats)[t] == cats[k].0
  {
    forall k, t | 0 <= k < |cats| && t in cats[k].1.topics
      ensures t in TopicMap(cats) && TopicMap(cats)[t] == cats[k].0
    {
      TopicMapAt(cats, k, t);
    }
  }

  /** The category a topic is indexed under, or "unknown". */
  function CategoryOf(m: map<string, string>, topic: string): string {
    if topic in m then m[topic] else "unknown"
  }

  /** Every category's topics, concatenated in table order. */
  function AllTopics(cats: seq<(string, TopicCategory)>): (r: seq<string>)
    ensures forall t :: t in r <==> Listed(cats, t)
  {
    if |cats| == 0 then []
    else
      var init := cats[..|cats| - 1];
      assert forall k :: 0 <= k < |cats| - 1 ==> cats[k] == init[k];
      AllTopics(init) + cats[|cats| - 1].1.topics
  }

  // ---------------------------------------------------------------------
  // Validation of a topic list
  // ---------------------------------------------------------------------

  /** Known topics, unknown topics, and the categories the known ones fall in. */
  datatype Validation = Validation(valid: seq<string>, invalid: seq<string>, categories: seq<string>)

  /** The validation of `topics`, one topic at a time. */
  function Validate(m: map<string, string>, topics: seq<string>): Validation
  {
    if |topics| == 0 then Validation([], [], [])
    else
      var v := Validate(m, topics[..|topics| - 1]);
      var t := topics[|topics| - 1];
      if t in m then
        Validation(v.valid + [t], v.invalid, if m[t] in v.categories then v.categories else v.categories + [m[t]])
      else
        Validation(v.valid, v.invalid + [t], v.categories)
  }

  /** The topics of `topics` that `m` indexes, in order. */
  function Known(m: map<string, string>, topics: seq<string>): (r: seq<string>)
    ensures forall t :: t in r <==> t in topics && t in m
  {
    if |topics| == 0 then []
    else
      var t := topics[0];
      assert forall x :: x in topics <==> x == t || x in topics[1..];
      (if t in m then [t] else []) + Known(m, topics[1..])
  }

  /** The topics of `topics` that `m` does not index, in order. */
  function Unknown(m: map<string, string>, topics: seq<string>): (r: seq<string>)
    ensures forall t :: t in r <==> t in topics && t !in m
  {
    if |topics| == 0 then []
    else
      var t := topics[0];
      assert forall x :: x in topics <==> x == t || x in topics[1..];
      (if t in m then [] else [t]) + Unknown(m, topics[1..])
  }

  /** The category of each topic, in order. */
  function CategoriesOf(m: map<string, string>, topics: seq<string>): (r: seq<string>)
    requires forall t :: t in topics ==> t in m
    ensures |r| == |topics| && forall i :: 0 <= i < |topics| ==> r[i] == m[topics[i]]
  {
    seq(|topics|, i requires 0 <= i < |topics| => m[topics[i]])
  }

  lemma {:induction false} KnownAppend(m: map<string, string>, a: seq<string>, b: seq<string>)
    ensures Known(m, a + b) == Known(m, a) + Known(m, b)
  {
    if |a| > 0 {
      assert (a + b)[1..] == a[1..] + b;
      KnownAppend(m, a[1..], b);
    } else {
      assert a + b == b;
    }
  }

  lemma {:induction false} UnknownAppend(m: map<string, string>, a: seq<string>, b: seq<string>)
    ensures Unknown(m, a + b) == Unknown(m, a) + Unknown(m, b)
  {
    if |a| > 0 {
      assert (a + b)[1..] == a[1..] + b;
      UnknownAppend(m, a[1..], b);
    } else {
      assert a + b == b;
    }
  }

  /** Validation is a stable partition: the valid list is the known topics and the
      invalid list the unknown ones, each in input order; the categories are those
      of the valid topics, each once, in order of first appearance. */
  lemma {:induction false} ValidateMeaning(m: map<string, string>, topics: seq<string>)
    ensures Validate(m, topics).valid == Known(m, topics)
    ensures Validate(m, topics).invalid == Unknown(m, topics)
    ensures Validate(m, topics).categories == Distinct(CategoriesOf(m, Known(m, topics)))
  {
    if |topics| > 0 {
      var init, t := topics[..|topics| - 1], topics[|topics| - 1];
      ValidateMeaning(m, init);
      KnownSnoc(m, init, t);
      assert topics == init + [t];
      if t in m {
        CategoriesSnoc(m, Known(m, init), t);
      }
    }
  }

  lemma KnownSnoc(m: map<string, string>, init: seq<string>, t: string)
    ensures Known(m, init + [t]) == Known(m, init) + (if t in m then [t] else [])
    ensures Unknown(m, init + [t]) == Unknown(m, init) + (if t in m then [] else [t])
  {
    KnownAppend(m, init, [t]);
    UnknownAppend(m, init, [t]);
    assert [t][1..] == [];
    assert Known(m, [t]) == (if t in m then [t] else []);
    assert Unknown(m, [t]) == (if t in m then [] else [t]);
  }

  lemma CategoriesSnoc(m: map<string, string>, known: seq<string>, t: string)
    requires t in m && forall x :: x in known ==> x in m
    ensures Distinct(CategoriesOf(m, known + [t])) ==
      var d := Distinct(CategoriesOf(m, known));
      if m[t] in d then d else d + [m[t]]
  {
    var cs := CategoriesOf(m, known + [t]);
    assert cs[..|cs| - 1] == CategoriesOf(m, known);
  }

  /** Every input topic lands in exactly one of the two lists. */
  lemma {:induction false} ValidatePartition(m: map<string, string>, topics: seq<string>)
    ensures multiset(Validate(m, topics).valid) + multiset(Validate(m, topics).invalid) == multiset(topics)
    ensures forall t :: t in Validate(m, topics).valid <==> t in topics && t in m
    ensures forall t :: t in Validate(m, topics).invalid <==> t in topics && t !in m
  {
    ValidateMeaning(m, topics);
    KnownUnknownSplit(m, topics);
  }

  lemma {:induction false} KnownUnknownSplit(m: map<string, string>, topics: seq<string>)
    ensures multiset(Known(m, topics)) + multiset(Unknown(m, topics)) == multiset(topics)
  {
    if |topics| > 0 {
      var t, rest := topics[0], topics[1..];
      KnownUnknownSplit(m, rest);
      assert multiset(topics) == multiset([t]) + multiset(rest) by {
        assert topics == [t] + rest;
      }
      if t in m {
        assert Known(m, topics) == [t] + Known(m, rest);
        assert Unknown(m, topics) == Unknown(m, rest);
      } else {
        assert Known(m, topics) == Known(m, rest);
        assert Unknown(m, topics) == [t] + Unknown(m, rest);
      }
    }
  }

  // ---------------------------------------------------------------------
  // Overall rating of a topic list
  // ---------------------------------------------------------------------

  /** The rating a topic brings: that of its category, when its category is in `cats`. */
  function TopicLevel(cats: seq<(string, TopicCategory)>, m: map<string, string>, t: string): Option<SafetyCategory>
  {
    match FindCategory(cats, CategoryOf(m, t))
    case Some(c) => Some(c.safetyLevel)
    case None => None
  }

  /** The running maximum by string value, starting from G. */
  function SafetyLevel(cats: seq<(string, TopicCategory)>, m: map<string, string>, topics: seq<string>): SafetyCategory
  {
    if |topics| == 0 then G
    else
      var level := SafetyLevel(cats, m, topics[..|topics| - 1]);
      match TopicLevel(cats, m, topics[|topics| - 1])
      case Some(l) => if StrLess(LevelValue(level), LevelValue(l)) then l else level
      case None => level
  }

  /** No known input topic has a higher rating than the result. */
  lemma {:induction false} SafetyLevelBounds(cats: seq<(string, TopicCategory)>, m: map<string, string>, topics: seq<string>)
    ensures var r := SafetyLevel(cats, m, topics);
      forall i :: 0 <= i < |topics| && TopicLevel(cats, m, topics[i]).Some?
        ==> Rank(TopicLevel(cats, m, topics[i]).value) <= Rank(r)
  {
    if |topics| > 0 {
      var init := topics[..|topics| - 1];
      SafetyLevelBounds(cats, m, init);
      var r := SafetyLevel(cats, m, topics);
      var level := SafetyLevel(cats, m, init);
      var tl := TopicLevel(cats, m, topics[|topics| - 1]);
      assert Rank(level) <= Rank(r) && (tl.Some? ==> Rank(tl.value) <= Rank(r)) by {
        if tl.Some? {
          LevelOrder(level, tl.value);
        }
      }
      forall i | 0 <= i < |topics| && TopicLevel(cats, m, topics[i]).Some?
        ensures Rank(TopicLevel(cats, m, topics[i]).value) <= Rank(r)
      {
        if i < |init| {
          assert topics[i] == init[i];
        }
      }
    }
  }

  /** The result is G or the rating of some input topic. */
  lemma {:induction false} SafetyLevelAttained(cats: seq<(string, TopicCategory)>, m: map<string, string>, topics: seq<string>)
    ensures var r := SafetyLevel(cats, m, topics);
      r == G || exists i :: 0 <= i < |topics| && TopicLevel(cats, m, topics[i]) == Some(r)
  {
    if |topics| > 0 {
      var init := topics[..|topics| - 1];
      SafetyLevelAttained(cats, m, init);
      assert forall i :: 0 <= i < |init| ==> init[i] == topics[i];
    }
  }

  /** The result is G or the rating of some input topic, and no input topic has a
      higher rating: it is the most severe rating among the known topics. */
  lemma SafetyLevelIsMax(cats: seq<(string, TopicCategory)>, m: map<string, string>, topics: seq<string>)
    ensures var r := SafetyLevel(cats, m, topics);
      forall i :: 0 <= i < |topics| && TopicLevel(cats, m, topics[i]).Some?
        ==> Rank(TopicLevel(cats, m, topics[i]).value) <= Rank(r)
    ensures var r := SafetyLevel(cats, m, topics);
      r == G || exists i :: 0 <= i < |topics| && TopicLevel(cats, m, topics[i]) == Some(r)
  {
    SafetyLevelBounds(cats, m, topics);
    SafetyLevelAttained(cats, m, topics);
  }

  /** Adding topics never lowers the rating. */
  lemma SafetyLevelMonotone(cats: seq<(string, TopicCategory)>, m: map<string, string>, a: seq<string>, b: seq<string>)
    ensures Rank(SafetyLevel(cats, m, a)) <= Rank(SafetyLevel(cats, m, a + b))
  {
    SafetyLevelIsMax(cats, m, a);
    SafetyLevelIsMax(cats, m, a + b);
    var r := SafetyLevel(cats, m, a);
    if r != G {
      var i :| 0 <= i < |a| && TopicLevel(cats, m, a[i]) == Some(r);
      assert (a + b)[i] == a[i];
    }
  }

  /** A topic list with no known topic is rated G. */
  lemma UnknownTopicsRateG(cats: seq<(string, TopicCategory)>, m: map<string, string>, topics: seq<string>)
    requires forall i :: 0 <= i < |topics| ==> TopicLevel(cats, m, topics[i]).None?
    ensures SafetyLevel(cats, m, topics) == G
  {
    SafetyLevelIsMax(cats, m, topics);
  }

  // ---------------------------------------------------------------------
  // The table's ratings and its documented uses
  // ---------------------------------------------------------------------

  /** Every listed topic is among the sorted topics, and nothing else is. */
  lemma AllTopicsSorted(cats: seq<(string, TopicCategory)>, t: string)
    ensures t in SortStrings(AllTopics(cats)) <==> Listed(cats, t)
  {
    var all := AllTopics(cats);
    assert t in all <==> t in multiset(all);
  }

  /** In the taxonomy's index, every listed topic is filed under its own category. */
  lemma TableIndexed(tx: Taxonomy, k: nat, t: string)
    requires tx.Valid() && k < |tx.categories| && t in tx.categories[k].1.topics
    ensures t in tx.topicToCategory && tx.topicToCategory[t] == tx.categories[k].0
  {
    TableTopicsDisjoint();
    TopicMapAt(tx.categories, k, t);
  }

  /** Over the taxonomy's table, a listed topic brings its own category's rating
      and an unlisted topic brings none. */
  lemma TableTopicLevel(tx: Taxonomy, k: nat, t: string)
    requires tx.Valid()
    ensures k < |tx.categories| && t in tx.categories[k].1.topics ==>
      TopicLevel(tx.categories, tx.topicToCategory, t) == Some(tx.categories[k].1.safetyLevel)
    ensures !Listed(tx.categories, t) ==> TopicLevel(tx.categories, tx.topicToCategory, t).None?
  {
    var T := tx.categories;
    TableNames();
    if k < |T| && t in T[k].1.topics {
      TableIndexed(tx, k, t);
      FindCategoryAt(T, T[k].0, k);
    }
  }

  /** Every topic of the taxonomy's table is offered. */
  lemma TopicOffered(tx: Taxonomy, k: nat, t: string)
    requires tx.Valid() && k < |tx.categories| && t in tx.categories[k].1.topics
    ensures t in SortStrings(AllTopics(tx.categories))
  {
    AllTopicsSorted(tx.categories, t);
  }

  /** Where payment, pii and recipe sit in the table. */
  lemma ExampleTopicsListed()
    ensures "payment" in TopicCategories[0].1.topics
    ensures "pii" in TopicCategories[1].1.topics
    ensures "recipe" in TopicCategories[4].1.topics
  {
    assert TopicCategories[0].1.topics == FinancialTopics && FinancialTopics[0] == "payment";
    assert TopicCategories[1].1.topics == PrivacyTopics && PrivacyTopics[0] == "pii";
    assert TopicCategories[4].1.topics == BusinessTopics && BusinessTopics[0] == "recipe";
  }

  /** Payment, pii and recipe are among the taxonomy's topics. */
  lemma AllTopicsExample(tx: Taxonomy)
    requires tx.Valid()
    ensures var all := SortStrings(AllTopics(tx.categories));
      "payment" in all && "pii" in all && "recipe" in all
  {
    ExampleTopicsListed();
    TopicOffered(tx, 0, "payment");
    TopicOffered(tx, 1, "pii");
    TopicOffered(tx, 4, "recipe");
  }

  /** Three topics, two known ones in different categories and then an unknown one. */
  lemma ValidateThree(m: map<string, string>, a: string, b: string, c: string)
    requires a in m && b in m && c !in m && m[a] != m[b]
    ensures Validate(m, [a, b, c]) == Validation([a, b], [c], [m[a], m[b]])
  {
    var ts := [a, b, c];
    assert ts[..2] == [a, b] && ts[..2][..1] == [a] && [a][..0] == [];
    assert Validate(m, [a]) == Validation([a], [], [m[a]]);
    assert Validate(m, [a, b]) == Validation([a, b], [], [m[a], m[b]]);
  }

  /** A topic no category of the table lists. */
  lemma InvalidTopicUnlisted()
    ensures !Listed(TopicCategories, "invalid_topic")
  {
    var T := TopicCategories;
    assert T[0].1.topics == FinancialTopics && T[1].1.topics == PrivacyTopics;
    assert T[2].1.topics == HealthcareTopics && T[3].1.topics == ContentSafetyTopics;
    assert T[4].1.topics == BusinessTopics && T[5].1.topics == SystemTopics;
  }

  /** Payment and pii are valid and fall in the financial and privacy categories;
      an unlisted topic is invalid. */
  lemma ValidateExample(tx: Taxonomy)
    requires tx.Valid()
    ensures Validate(tx.topicToCategory, ["payment", "pii", "invalid_topic"])
      == Validation(["payment", "pii"], ["invalid_topic"], ["financial", "privacy"])
  {
    var T := tx.categories;
    assert "payment" in T[0].1.topics && "pii" in T[1].1.topics;
    TableIndexed(tx, 0, "payment");
    TableIndexed(tx, 1, "pii");
    InvalidTopicUnlisted();
    ValidateThree(tx.topicToCategory, "payment", "pii", "invalid_topic");
  }

  /** Two topics with known ratings: the higher one by string value wins. */
  lemma SafetyLevelTwo(cats: seq<(string, TopicCategory)>, m: map<string, string>, a: string, b: string,
                       la: SafetyCategory, lb: SafetyCategory)
    requires TopicLevel(cats, m, a) == Some(la) && TopicLevel(cats, m, b) == Some(lb)
    ensures SafetyLevel(cats, m, [a, b]) == (if Rank(la) < Rank(lb) then lb else la)
  {
    LevelOrder(G, la);
    LevelOrder(la, lb);
    assert [a, b][..1] == [a] && [a][..0] == [];
    assert SafetyLevel(cats, m, [a]) == la;
  }

  /** Payment (rated PG) together with adult content (rated R) is rated R. */
  lemma SafetyLevelExample(tx: Taxonomy)
    requires tx.Valid()
    ensures SafetyLevel(tx.categories, tx.topicToCategory, ["payment", "adult"]) == R
  {
    var T := tx.categories;
    assert "payment" in T[0].1.topics && "adult" in T[3].1.topics;
    assert T[0].1.safetyLevel == PG && T[3].1.safetyLevel == R;
    TableTopicLevel(tx, 0, "payment");
    TableTopicLevel(tx, 3, "adult");
    SafetyLevelTwo(T, tx.topicToCategory, "payment", "adult", PG, R);
  }

  // ---------------------------------------------------------------------
  // The taxonomy object
  // ---------------------------------------------------------------------

  class Taxonomy {
    var categories: seq<(string, TopicCategory)>
    var topicToCategory: map<string, string>

    /** The object holds the table and the reverse index built from it. */
    predicate Valid()
      reads this
    {
      categories == TopicCategories && topicToCategory == TopicMap(categories)
    }

    constructor()
      ensures Valid()
    {
      categories := TopicCategories;
      new;
      topicToCategory := BuildTopicMap();
    }

    /** Sends each topic to its category, category by category and topic by topic. */
    method BuildTopicMap() returns (topicMap: map<string, string>)
      ensures topicMap == TopicMap(categories)
    {
      topicMap := map[];
      var i := 0;
      while i < |categories|
        invariant 0 <= i <= |categories|
        invariant topicMap == TopicMap(categories[..i])
      {
        var (name, category) := categories[i];
        var j := 0;
        while j < |category.topics|
          invariant 0 <= j <= |category.topics|
          invariant topicMap == AddTopics(TopicMap(categories[..i]), category.topics[..j], name)
        {
          assert category.topics[..j + 1][..j] == category.topics[..j];
          topicMap := topicMap[category.topics[j] := name];
          j := j + 1;
        }
        assert category.topics[..j] == category.topics;
        assert categories[..i + 1][..i] == categories[..i];
        i := i + 1;
      }
      assert categories[..i] == categories;
    }

    /** All topics of all categories, sorted. */
    method GetAllTopics() returns (r: seq<string>)
      ensures r == SortStrings(AllTopics(categories))
    {
      var topics: seq<string> := [];
      var i := 0;
      while i < |categories|
        invariant 0 <= i <= |categories|
        invariant topics == AllTopics(categories[..i])
      {
        assert categories[..i + 1][..i] == categories[..i];
        topics := topics + categories[i].1.topics;
        i := i + 1;
      }
      assert categories[..i] == categories;
      r := SortStrings(topics);
    }

    /** A category's topics; no topics for a name that is not in the table. */
    function GetCategoryTopics(category: string): (r: seq<string>)
      reads this
      requires Valid()
      ensures forall k :: 0 <= k < |categories| && categories[k].0 == category ==> r == categories[k].1.topics
      ensures (forall k :: 0 <= k < |categories| ==> categories[k].0 != category) ==> r == []
    {
      TableNames();
      if exists k :: 0 <= k < |categories| && categories[k].0 == category then
        var k :| 0 <= k < |categories| && categories[k].0 == category;
        FindCategoryAt(categories, category, k);
        FindCategory(categories, category).value.topics
      else
        []
    }

    /** A topic's category; "unknown" for a topic no category lists. */
    function GetTopicCategory(topic: string): (r: string)
      reads this
      requires Valid()
      ensures forall k :: 0 <= k < |categories| && topic in categories[k].1.topics ==> r == categories[k].0
      ensures !Listed(categories, topic) ==> r == "unknown"
    {
      TableTopicsDisjoint();
      DisjointTopicMap(categories);
      CategoryOf(topicToCategory, topic)
    }

    /** Splits `topics` into known and unknown ones and collects the known ones' categories. */
    method ValidateTopics(topics: seq<string>) returns (r: Validation)
      ensures r == Validate(topicToCategory, topics)
    {
      var valid: seq<string> := [];
      var invalid: seq<string> := [];
      var cats: seq<string> := [];
      var i := 0;
      while i < |topics|
        invariant 0 <= i <= |topics|
        invariant Validation(valid, invalid, cats) == Validate(topicToCategory, topics[..i])
      {
        assert topics[..i + 1][..i] == topics[..i];
        var topic := topics[i];
        if topic in topicToCategory {
          valid := valid + [topic];
          var category := topicToCategory[topic];
          if category !in cats {
            cats := cats + [category];
          }
        } else {
          invalid := invalid + [topic];
        }
        i := i + 1;
      }
      assert topics[..i] == topics;
      r := Validation(valid, invalid, cats);
    }

    /** The most severe rating among the categories of the given topics, G if none. */
    method GetSafetyLevel(topics: seq<string>) returns (r: SafetyCategory)
      requires Valid()
      ensures r == SafetyLevel(categories, topicToCategory, topics)
    {
      var maxLevel := G;
      var i := 0;
      while i < |topics|
        invariant 0 <= i <= |topics|
        invariant maxLevel == SafetyLevel(categories, topicToCategory, topics[..i])
      {
        assert topics[..i + 1][..i] == topics[..i];
        var categoryName := GetTopicCategory(topics[i]);
        var found := FindCategory(categories, categoryName);
        if found.Some? {
          var categoryLevel := found.value.safetyLevel;
          if StrLess(LevelValue(maxLevel), LevelValue(categoryLevel)) {
            maxLevel := categoryLevel;
          }
        }
        i := i + 1;
      }
      assert topics[..i] == topics;
      r := maxLevel;
    }
  }
}
