/** The library of ready-made policy requirements: five templates, each with an
    id, a display name, a category, a description and an example requirement in
    plain English. The library filters them by category, looks one up by id and
    lists the categories in use. */
module Templates {
  import opened PyValues

  /** One template. The category is one of "finance", "healthcare", "ai_safety",
      "data_access" and "system"; a filter compares it as a plain string. */
  datatype PolicyTemplate = PolicyTemplate(
    id: string,
    name: string,
    category: string,
    description: string,
    example: string)

  const PaymentExecution := PolicyTemplate(
    "payment_execution",
    "Payment Execution",
    "finance",
    "AI agent payment policy with amount limits, sanctions screening, and rate limiting",
    "Allow AI agents to execute payments up to $50. Block sanctioned entities. \n"
    + "Limit cumulative hourly amount to $50. Maximum 5 transactions per 5 minutes.\n"
    + "Topics: payment, transaction. Block topics: recipe, adult.")

  const PhiAccess := PolicyTemplate(
    "phi_access",
    "PHI Access",
    "healthcare",
    "HIPAA-compliant policy for accessing protected health information",
    "Allow healthcare providers to read patient records. Require role verification. \n"
    + "Log all access. Block access to records of patients not under their care.\n"
    + "Topics: phi, medical_record, healthcare. Block topics: payment, recipe.")

  const ModelInvocation := PolicyTemplate(
    "model_invocation",
    "AI Model Invocation Policy",
    "ai_safety",
    "Policy for controlling AI model invocations with prompt filtering",
    "Allow AI agents to invoke models for approved use cases. Block jailbreak attempts. \n"
    + "Limit to 100 requests per hour. Require content filtering.\n"
    + "Topics: api, configuration. Block topics: adult, violence, illegal.")

  const PiiExport := PolicyTemplate(
    "pii_export",
    "PII Export Control Policy",
    "data_access",
    "Policy for controlling export of personally identifiable information",
    "Allow data analysts to export anonymized data. Block export of PII fields. \n"
    + "Require approval for exports over 10,000 records. Log all export operations.\n"
    + "Topics: pii, personal_data. Block topics: phi, medical_record.")

  const AdminAccess := PolicyTemplate(
    "admin_access",
    "Admin Access Policy",
    "system",
    "Policy for administrative system access with MFA requirements",
    "Allow system administrators to modify configurations. Require MFA verification. \n"
    + "Block after 3 failed attempts. Require approval for production changes.\n"
    + "Topics: admin, configuration, security. Block topics: recipe, entertainment.")

  /** The templates in their declared order. */
  const PolicyTemplates: seq<PolicyTemplate> :=
    [PaymentExecution, PhiAccess, ModelInvocation, PiiExport, AdminAccess]

  /** No two templates share an id. */
  predicate DistinctIds(ts: seq<PolicyTemplate>) {
    forall i, j :: 0 <= i < j < |ts| ==> ts[i].id != ts[j].id
  }

  /** The library holds five templates with pairwise different ids. */
  lemma LibraryShape()
    ensures |PolicyTemplates| == 5 && DistinctIds(PolicyTemplates)
  {
    var ids := ["payment_execution", "phi_access", "model_invocation", "pii_export", "admin_access"];
    assert forall i :: 0 <= i < 5 ==> PolicyTemplates[i].id == ids[i];
    assert ids[0][1] == 'a' && ids[1][1] == 'h' && ids[2][1] == 'o' && ids[3][1] == 'i' && ids[4][1] == 'd';
  }

  // ---------------------------------------------------------------------
  // list_templates
  // ---------------------------------------------------------------------

  /** The templates of category `c`, in their order in `ts`. */
  function OfCategory(ts: seq<PolicyTemplate>, c: string): (r: seq<PolicyTemplate>)
    ensures |r| <= |ts|
  {
    if |ts| == 0 then []
    else (if ts[0].category == c then [ts[0]] else []) + OfCategory(ts[1..], c)
  }

  /** `list_templates`: with no category, or an empty one, the whole library in
      declared order; otherwise the templates of that category. */
  function ListTemplates(category: Option<string>): seq<PolicyTemplate> {
    if category.None? || category.value == "" then PolicyTemplates
    else OfCategory(PolicyTemplates, category.value)
  }

  /** A template is kept exactly when it is in the list and has the category. */
  lemma {:induction false} OfCategoryMembers(ts: seq<PolicyTemplate>, c: string, t: PolicyTemplate)
    ensures t in OfCategory(ts, c) <==> t in ts && t.category == c
  {
    if |ts| > 0 {
      OfCategoryMembers(ts[1..], c, t);
      assert ts == [ts[0]] + ts[1..];
    }
  }

  /** Filtering distributes over concatenation, so the kept templates keep
      their relative order. */
  lemma {:induction false} OfCategoryAppend(a: seq<PolicyTemplate>, b: seq<PolicyTemplate>, c: string)
    ensures OfCategory(a + b, c) == OfCategory(a, c) + OfCategory(b, c)
  {
    if |a| > 0 {
      assert (a + b)[1..] == a[1..] + b;
      OfCategoryAppend(a[1..], b, c);
    } else {
      assert a + b == b;
    }
  }

  /** A list all of one category passes the filter unchanged; a list with
      none of it is filtered away. */
  lemma {:induction false} OfCategoryAllOrNone(ts: seq<PolicyTemplate>, c: string)
    ensures (forall i :: 0 <= i < |ts| ==> ts[i].category == c) ==> OfCategory(ts, c) == ts
    ensures (forall i :: 0 <= i < |ts| ==> ts[i].category != c) ==> OfCategory(ts, c) == []
  {
    if |ts| > 0 {
      OfCategoryAllOrNone(ts[1..], c);
      if forall i :: 0 <= i < |ts| ==> ts[i].category == c {
        assert forall i :: 0 <= i < |ts[1..]| ==> ts[1..][i].category == c by {
          forall i | 0 <= i < |ts[1..]| ensures ts[1..][i].category == c {
            assert ts[1..][i] == ts[i + 1];
          }
        }
      }
      if forall i :: 0 <= i < |ts| ==> ts[i].category != c {
        assert forall i :: 0 <= i < |ts[1..]| ==> ts[1..][i].category != c by {
          forall i | 0 <= i < |ts[1..]| ensures ts[1..][i].category != c {
            assert ts[1..][i] == ts[i + 1];
          }
        }
      }
    }
  }

  /** Listing returns exactly the library's templates of the requested
      category; with none requested it returns all of them. */
  lemma ListTemplatesMeaning(category: Option<string>, t: PolicyTemplate)
    ensures category.None? || category.value == "" ==> ListTemplates(category) == PolicyTemplates
    ensures category.Some? && category.value != "" ==>
      (t in ListTemplates(category) <==> t in PolicyTemplates && t.category == category.value)
  {
    if category.Some? && category.value != "" {
      OfCategoryMembers(PolicyTemplates, category.value, t);
    }
  }

  /** The finance category holds the payment template alone. */
  lemma FinanceExample()
    ensures ListTemplates(Some("finance")) == [PaymentExecution]
    ensures ListTemplates(Some("finance"))[0].name == "Payment Execution"
  {
    var rest := PolicyTemplates[1..];
    assert PolicyTemplates == [PaymentExecution] + rest;
    assert forall i :: 0 <= i < |rest| ==> rest[i].category != "finance" by {
      forall i | 0 <= i < |rest| ensures rest[i].category != "finance" {
        assert rest[i].category[0] != 'f';
      }
    }
    OfCategoryAllOrNone(rest, "finance");
    OfCategoryAppend([PaymentExecution], rest, "finance");
  }

  // ---------------------------------------------------------------------
  // get_template
  // ---------------------------------------------------------------------

  /** Position `i` holds the first template of `ts` whose id is `id`. */
  predicate FirstWithId(ts: seq<PolicyTemplate>, id: string, i: int) {
    0 <= i < |ts| && ts[i].id == id && forall j :: 0 <= j < i ==> ts[j].id != id
  }

  /** The first template of `ts` whose id is `id`, if any. */
  function FindTemplate(ts: seq<PolicyTemplate>, id: string): (r: Option<PolicyTemplate>)
    ensures r.None? <==> forall i :: 0 <= i < |ts| ==> ts[i].id != id
    ensures r.Some? ==> exists i :: FirstWithId(ts, id, i) && ts[i] == r.value
  {
    if |ts| == 0 then None
    else if ts[0].id == id then
      assert FirstWithId(ts, id, 0);
      Some(ts[0])
    else
      var r := FindTemplate(ts[1..], id);
      assert forall i :: 1 <= i < |ts| ==> ts[i] == ts[1..][i - 1];
      if r.Some? then
        var i :| FirstWithId(ts[1..], id, i) && ts[1..][i] == r.value;
        assert FirstWithId(ts, id, i + 1);
        r
      else r
  }

  /** `get_template`: the library's template with this id, or None. */
  function GetTemplate(templateId: string): Option<PolicyTemplate> {
    FindTemplate(PolicyTemplates, templateId)
  }

  /** With distinct ids the lookup finds the one template carrying the id. */
  lemma {:induction false} FindDistinct(ts: seq<PolicyTemplate>, k: nat)
    requires DistinctIds(ts) && k < |ts|
    ensures FindTemplate(ts, ts[k].id) == Some(ts[k])
  {
    if k > 0 {
      assert ts[0].id != ts[k].id;
      var tail := ts[1..];
      assert tail[k - 1] == ts[k];
      assert DistinctIds(tail) by {
        forall i, j | 0 <= i < j < |tail| ensures tail[i].id != tail[j].id {
          assert tail[i] == ts[i + 1] && tail[j] == ts[j + 1];
        }
      }
      FindDistinct(tail, k - 1);
    }
  }

  /** Every template of the library is found by its own id, and an id that no
      template carries gives None. */
  lemma GetTemplateMeaning(k: nat, id: string)
    requires k < |PolicyTemplates|
    ensures GetTemplate(PolicyTemplates[k].id) == Some(PolicyTemplates[k])
    ensures (forall t :: t in PolicyTemplates ==> t.id != id) ==> GetTemplate(id) == None
  {
    LibraryShape();
    FindDistinct(PolicyTemplates, k);
  }

  /** The payment template is found by id; an unknown id is not. */
  lemma GetTemplateExample()
    ensures GetTemplate("payment_execution").Some?
    ensures GetTemplate("payment_execution").value.name == "Payment Execution"
    ensures GetTemplate("non_existent") == None
  {
    assert PolicyTemplates[0].id == "payment_execution";
    GetTemplateMeaning(0, "non_existent");
    forall t | t in PolicyTemplates ensures t.id != "non_existent" {
      assert t.id[0] != 'n';
    }
  }

  // ---------------------------------------------------------------------
  // get_categories
  // ---------------------------------------------------------------------

  /** `get_categories`: the categories in use, each once. The source builds a
      list from a set, so its order is unspecified; the model returns the set. */
  function GetCategories(): (r: set<string>)
    ensures forall c :: c in r <==> exists t :: t in PolicyTemplates && t.category == c
  {
    set t | t in PolicyTemplates :: t.category
  }

  /** Each template's category is in use, and a category is in use exactly when
      filtering by it keeps some template. */
  lemma CategoriesMeaning(c: string)
    requires c != ""
    ensures c in GetCategories() <==> ListTemplates(Some(c)) != []
  {
    if c in GetCategories() {
      var t :| t in PolicyTemplates && t.category == c;
      OfCategoryMembers(PolicyTemplates, c, t);
    }
    if ListTemplates(Some(c)) != [] {
      OfCategoryMembers(PolicyTemplates, c, ListTemplates(Some(c))[0]);
    }
  }

  /** The five categories, one template each. */
  lemma CategoriesExample()
    ensures GetCategories() == {"finance", "healthcare", "ai_safety", "data_access", "system"}
  {
    assert PolicyTemplates[0].category == "finance";
    assert PolicyTemplates[1].category == "healthcare";
    assert PolicyTemplates[2].category == "ai_safety";
    assert PolicyTemplates[3].category == "data_access";
    assert PolicyTemplates[4].category == "system";
  }
}
