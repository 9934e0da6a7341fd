/** The keyword classifier of the sync coordinator (`analyze_request`) and the
    relevance filter applied to watched repositories. */
module Classifier {
  import opened Text

  /** The five kinds of reply the coordinator can give. */
  datatype Category = ProductSync | OrderSync | JobQueue | Configuration | General

  /** One guard of the classifier: if any keyword occurs, answer `category`. */
  datatype Guard = Guard(keywords: seq<string>, category: Category)

  const ProductKeywords: seq<string> := ["product", "sync", "variant", "color"]
  const OrderKeywords: seq<string> := ["order", "webhook", "real-time"]
  const JobQueueKeywords: seq<string> := ["job", "queue", "async", "background"]
  const ConfigurationKeywords: seq<string> := ["config", "setup", "webhook", "api"]

  /** Every keyword any guard of the classifier tests. */
  const ClassifierKeywords: seq<string> :=
    ProductKeywords + OrderKeywords + JobQueueKeywords + ConfigurationKeywords

  /** The guards in the order the classifier tries them. */
  const GuardChain: seq<Guard> := [
    Guard(ProductKeywords, ProductSync),
    Guard(OrderKeywords, OrderSync),
    Guard(JobQueueKeywords, JobQueue),
    Guard(ConfigurationKeywords, Configuration)
  ]

  /** The broader e-commerce keywords that make a watched-repository issue
      worth looking at. */
  const RelevanceKeywords: seq<string> := [
    "woocommerce", "ecommerce", "e-commerce", "online store",
    "webhook", "shop sync", "product sync"
  ]

  /** The text every keyword test runs on: lower-cased title, one space,
      lower-cased body. */
  function Joined(title: string, body: string): string {
    Lower(title) + " " + Lower(body)
  }

  /** `any(word in text for word in keywords)` */
  predicate AnyIn(text: string, keywords: seq<string>) {
    exists k :: k in keywords && Contains(text, k)
  }

  /** Tries the guards in order; the first one with a matching keyword
      decides, and `General` is the answer when none matches. */
  function FirstMatch(guards: seq<Guard>, text: string): Category {
    if guards == [] then General
    else if AnyIn(text, guards[0].keywords) then guards[0].category
    else FirstMatch(guards[1..], text)
  }

  /** `analyze_request`: the category of an issue with this title and body. */
  function Classify(title: string, body: string): Category {
    FirstMatch(GuardChain, Joined(title, body))
  }

  /** The relevance test applied to issues of watched repositories. */
  predicate Relevant(title: string, body: string) {
    AnyIn(Joined(title, body), RelevanceKeywords)
  }

  /** The classifier as the source's if/elif chain reads: each category is
      chosen exactly when one of its keywords occurs and no keyword of an
      earlier category does; `General` exactly when nothing matches. */
  lemma ClassifyChain(title: string, body: string)
    ensures var text, r := Joined(title, body), Classify(title, body);
      && (r == ProductSync <==> AnyIn(text, ProductKeywords))
      && (r == OrderSync <==>
            !AnyIn(text, ProductKeywords) && AnyIn(text, OrderKeywords))
      && (r == JobQueue <==>
            !AnyIn(text, ProductKeywords) && !AnyIn(text, OrderKeywords)
            && AnyIn(text, JobQueueKeywords))
      && (r == Configuration <==>
            !AnyIn(text, ProductKeywords) && !AnyIn(text, OrderKeywords)
            && !AnyIn(text, JobQueueKeywords) && AnyIn(text, ConfigurationKeywords))
  {
    var text := Joined(title, body);
    var rest := GuardChain[1..];
    assert FirstMatch(GuardChain, text) ==
      if AnyIn(text, ProductKeywords) then ProductSync else FirstMatch(rest, text);
    assert FirstMatch(rest, text) ==
      if AnyIn(text, OrderKeywords) then OrderSync else FirstMatch(rest[1..], text);
    assert FirstMatch(rest[1..], text) ==
      if AnyIn(text, JobQueueKeywords) then JobQueue else FirstMatch(rest[2..], text);
    assert FirstMatch(rest[2..], text) ==
      if AnyIn(text, ConfigurationKeywords) then Configuration else FirstMatch(rest[3..], text);
    assert rest[3..] == [];
  }

  /** Fallback: the answer is `General` exactly when none of the classifier's
      keywords occurs in the joined text. */
  lemma GeneralIffNoKeyword(title: string, body: string)
    ensures Classify(title, body) == General <==>
      forall k :: k in ClassifierKeywords ==> !Contains(Joined(title, body), k)
  {
    ClassifyChain(title, body);
    var text := Joined(title, body);
    if Classify(title, body) == General {
      forall k | k in ClassifierKeywords ensures !Contains(text, k) {
        assert k in ProductKeywords || k in OrderKeywords
          || k in JobQueueKeywords || k in ConfigurationKeywords;
      }
    } else {
      var d := if AnyIn(text, ProductKeywords) then ProductKeywords
        else if AnyIn(text, OrderKeywords) then OrderKeywords
        else if AnyIn(text, JobQueueKeywords) then JobQueueKeywords
        else ConfigurationKeywords;
      var k :| k in d && Contains(text, k);
      assert k in ClassifierKeywords;
    }
  }

  /** First match wins: a product keyword decides the answer whatever else
      the text mentions. */
  lemma ProductKeywordWins(title: string, body: string, k: string)
    requires k in ProductKeywords && Contains(Joined(title, body), k)
    ensures Classify(title, body) == ProductSync
  {
    ClassifyChain(title, body);
  }

  /** `async` is listed as a job-queue keyword, but every text holding it
      holds `sync`, so such a text is classified as product sync. */
  lemma AsyncIsProductSync(title: string, body: string)
    requires Contains(Joined(title, body), "async")
    ensures Classify(title, body) == ProductSync
    ensures Classify(title, body) != JobQueue
  {
    ContainsTransitive(Joined(title, body), "async", "sync");
    ProductKeywordWins(title, body, "sync");
  }

  /** `webhook` is an order keyword, so a text holding it is classified as
      order sync, or as product sync when a product keyword also occurs. */
  lemma WebhookIsProductOrOrderSync(title: string, body: string)
    requires Contains(Joined(title, body), "webhook")
    ensures Classify(title, body) in {ProductSync, OrderSync}
  {
    ClassifyChain(title, body);
    assert "webhook" in OrderKeywords;
  }

  /** The guard chain with its two dead keywords removed: `async` from the
      job-queue guard and `webhook` from the configuration guard. */
  const PrunedGuardChain: seq<Guard> := [
    Guard(ProductKeywords, ProductSync),
    Guard(OrderKeywords, OrderSync),
    Guard(["job", "queue", "background"], JobQueue),
    Guard(["config", "setup", "api"], Configuration)
  ]

  /** The job-queue `async` and the configuration `webhook` never decide an
      answer: dropping both leaves the classifier unchanged on every text. */
  lemma DeadKeywords(title: string, body: string)
    ensures FirstMatch(PrunedGuardChain, Joined(title, body)) == Classify(title, body)
  {
    var text := Joined(title, body);
    ClassifyChain(title, body);
    var rest := PrunedGuardChain[1..];
    var job, config := PrunedGuardChain[2].keywords, PrunedGuardChain[3].keywords;
    assert FirstMatch(PrunedGuardChain, text) ==
      if AnyIn(text, ProductKeywords) then ProductSync else FirstMatch(rest, text);
    assert FirstMatch(rest, text) ==
      if AnyIn(text, OrderKeywords) then OrderSync else FirstMatch(rest[1..], text);
    assert FirstMatch(rest[1..], text) ==
      if AnyIn(text, job) then JobQueue else FirstMatch(rest[2..], text);
    assert FirstMatch(rest[2..], text) ==
      if AnyIn(text, config) then Configuration else FirstMatch(rest[3..], text);
    assert rest[3..] == [];
    assert AnyIn(text, job) ==> AnyIn(text, JobQueueKeywords);
    assert AnyIn(text, config) ==> AnyIn(text, ConfigurationKeywords);
    if Contains(text, "async") {
      AsyncIsProductSync(title, body);
    }
    if Contains(text, "webhook") {
      WebhookIsProductOrOrderSync(title, body);
    }
  }

  /** Classification and relevance see only the lower-cased title and body. */
  lemma CaseInsensitive(title: string, body: string)
    ensures Classify(Lower(title), Lower(body)) == Classify(title, body)
    ensures Relevant(Lower(title), Lower(body)) == Relevant(title, body)
  {
    LowerIdempotent(title);
    LowerIdempotent(body);
  }

  /** `shop sync` and `product sync` make an issue relevant, and every
      issue they admit is classified as product sync. */
  lemma SyncPhrasesAreProductSync(title: string, body: string)
    requires Contains(Joined(title, body), "shop sync")
          || Contains(Joined(title, body), "product sync")
    ensures Relevant(title, body)
    ensures Classify(title, body) == ProductSync
  {
    var text := Joined(title, body);
    if Contains(text, "shop sync") {
      ContainsTransitive(text, "shop sync", "sync");
      assert "shop sync" in RelevanceKeywords;
    } else {
      ContainsTransitive(text, "product sync", "sync");
      assert "product sync" in RelevanceKeywords;
    }
    ProductKeywordWins(title, body, "sync");
  }

  /** A text lacking the letters r, y, v and c holds no product keyword. */
  lemma NoProductKeyword(text: string)
    requires 'r' !in text && 'y' !in text && 'v' !in text && 'c' !in text
    ensures !AnyIn(text, ProductKeywords)
  {
    MissingCharExcludes(text, "product", 'r');
    MissingCharExcludes(text, "sync", 'y');
    MissingCharExcludes(text, "variant", 'v');
    MissingCharExcludes(text, "color", 'c');
  }

  /** Because the relevance test runs on the joined text, `online store`
      can match with "online" ending the title and "store" starting the
      body, while neither part holds the phrase on its own. */
  lemma RelevanceSpansBoundary(title: string, body: string)
    requires title == "Our online" && body == "store is down"
    ensures Relevant(title, body)
    ensures !Contains(Lower(title), "online store")
    ensures !Contains(Lower(body), "online store")
  {
    var lead, rest := "Our ", " is down";
    assert title == lead + "online" && body == "store" + rest;
    LowerConcat(lead, "online");
    LowerConcat("store", rest);
    LowerOfLowercase("online");
    LowerOfLowercase("store");
    assert Lower(lead) + "online store" <= Joined(title, body);
    ContainsAfterPrefix(Joined(title, body), Lower(lead), "online store");
    assert "online store" in RelevanceKeywords;
    LowerAvoids(body, 'l');
    MissingCharExcludes(Lower(body), "online store", 'l');
  }

  /** A keyword found in the lower-cased title is found in the joined text. */
  lemma KeywordInTitle(title: string, body: string, k: string)
    requires Contains(Lower(title), k)
    ensures Contains(Joined(title, body), k)
  {
    ContainsInConcat(Lower(title), " " + Lower(body), k);
    assert Joined(title, body) == Lower(title) + (" " + Lower(body));
  }

  /** A title mentioning `webhook` but none of the letters r, y, v and c,
      with an empty body, is classified as order sync. */
  lemma WebhookTitleIsOrderSync(title: string, body: string)
    requires 'r' !in Lower(title) && 'y' !in Lower(title)
    requires 'v' !in Lower(title) && 'c' !in Lower(title)
    requires Contains(Lower(title), "webhook") && body == ""
    ensures Classify(title, body) == OrderSync
  {
    assert Lower(body) == "";
    NoProductKeyword(Joined(title, body));
    KeywordInTitle(title, body, "webhook");
    assert "webhook" in OrderKeywords;
    ClassifyChain(title, body);
  }

  /** What lower-casing "How to setup webhook" yields: `webhook` after
      "how to setup ", and none of the letters r, y, v and c. */
  lemma SetupWebhookLowered(title: string)
    requires title == "How to setup webhook"
    ensures 'r' !in Lower(title) && 'y' !in Lower(title)
    ensures 'v' !in Lower(title) && 'c' !in Lower(title)
    ensures Contains(Lower(title), "webhook")
  {
    SetupWebhookLacks(title, 'r', 'y');
    SetupWebhookLacks(title, 'v', 'c');
    var lead := "How to setup ";
    assert title == lead + "webhook";
    LowerConcat(lead, "webhook");
    LowerOfLowercase("webhook");
    ContainsAfterPrefix(Lower(title), Lower(lead), "webhook");
  }

  /** Two of the letters absent from the lower-cased title. */
  lemma SetupWebhookLacks(title: string, a: char, b: char)
    requires title == "How to setup webhook"
    requires (a == 'r' && b == 'y') || (a == 'v' && b == 'c')
    ensures a !in Lower(title) && b !in Lower(title)
  {
    LowerAvoids(title, a);
    LowerAvoids(title, b);
  }

  /** An issue titled "How to setup webhook" is classified as order sync,
      although the configuration guard matches it too: the order guard,
      holding `webhook`, is tried first. */
  lemma SetupWebhookIsOrderSync(title: string, body: string)
    requires title == "How to setup webhook" && body == ""
    ensures AnyIn(Joined(title, body), ConfigurationKeywords)
    ensures Classify(title, body) == OrderSync
  {
    SetupWebhookLowered(title);
    WebhookTitleIsOrderSync(title, body);
    KeywordInTitle(title, body, "webhook");
    assert "webhook" in ConfigurationKeywords;
  }

  /** An issue titled "Product variant sync fails for colors" is a product
      sync question. */
  lemma ProductVariantIsProductSync(title: string, body: string)
    requires title == "Product variant sync fails for colors" && body == ""
    ensures Classify(title, body) == ProductSync
  {
    LowerSlice(title, 0, 7);
    assert title[0..7] == "Product";
    assert Lower("Product") == "product";
    FoundAt(Lower(title), "product", 0);
    KeywordInTitle(title, body, "product");
    ProductKeywordWins(title, body, "product");
  }
}
