/** Issues as the coordinator sees them, the identity marker that makes its
    replies recognisable (`already_responded`), and the replies it posts. */
module Issues {
  import opened Text
  import opened Classifier

  /** The literal every reply carries and `already_responded` looks for. */
  const Marker: string := "WooCommerce Sync Coordinator"

  datatype Comment = Comment(body: string)

  /** An issue of some repository; only `open` issues are listed to the
      coordinator. Comments are kept in the order they were posted. */
  datatype Issue = Issue(number: nat, title: string, body: string, open: bool, comments: seq<Comment>)

  /** Some comment carries the identity marker. */
  predicate Responded(comments: seq<Comment>) {
    exists i :: 0 <= i < |comments| && Contains(comments[i].body, Marker)
  }

  /** `already_responded`: walks the comments in order and stops at the
      first one carrying the marker. */
  method AlreadyResponded(comments: seq<Comment>) returns (found: bool)
    ensures found <==> Responded(comments)
  {
    for i := 0 to |comments|
      invariant forall j :: 0 <= j < i ==> !Contains(comments[j].body, Marker)
    {
      if Contains(comments[i].body, Marker) {
        return true;
      }
    }
    return false;
  }

  /** The marker check looks at which comments exist, not at their order. */
  lemma RespondedIgnoresOrder(a: seq<Comment>, b: seq<Comment>)
    requires multiset(a) == multiset(b)
    ensures Responded(a) <==> Responded(b)
  {
    if Responded(a) {
      var i :| 0 <= i < |a| && Contains(a[i].body, Marker);
      assert a[i] in multiset(b);
      var j :| 0 <= j < |b| && b[j] == a[i];
    }
    if Responded(b) {
      var j :| 0 <= j < |b| && Contains(b[j].body, Marker);
      assert b[j] in multiset(a);
      var i :| 0 <= i < |a| && a[i] == b[j];
    }
  }

  /** Once an issue counts as answered, later comments never undo that. */
  lemma RespondedPersists(comments: seq<Comment>, later: seq<Comment>)
    requires Responded(comments)
    ensures Responded(comments + later)
  {
    var i :| 0 <= i < |comments| && Contains(comments[i].body, Marker);
    assert (comments + later)[i] == comments[i];
  }

  /** What every reply opens with, just before the marker: a level-two
      heading and a shopping-cart emoji. */
  const Lead: string := "## \U{1F6D2} "

  /** The first line of each reply template: the lead, the marker, and for
      the four specific categories the section name. */
  function Heading(c: Category): string {
    Lead + Marker + " Response" + HeadingTail(c)
  }

  /** The section name a heading ends with, after " Response". */
  function HeadingTail(c: Category): string {
    match c
    case ProductSync => " - Product Synchronization"
    case OrderSync => " - Order Management"
    case JobQueue => " - Job Queue System"
    case Configuration => " - Configuration Guide"
    case General => ""
  }

  /** What the general reply says between its heading and the echoed title. */
  const GeneralIntro: string :=
    "\n\n" + "I manage the integration between Odoo and WooCommerce for the paint business."
    + "\n\n" + "### Current Request: "

  /** The reply posted for an issue of category `c` titled `title`. The
      general reply echoes the title; the rest of each template is fixed
      prose and is not modelled. */
  function ReplyText(c: Category, title: string): string {
    if c == General then
      Heading(c) + GeneralIntro + title
    else
      Heading(c)
  }

  /** `analyze_request` followed by `create_comment`: the comment posted on
      an issue. */
  function Reply(issue: Issue): Comment {
    Comment(ReplyText(Classify(issue.title, issue.body), issue.title))
  }

  /** Every reply template carries the marker, right after "## " and the
      emoji. */
  lemma ReplyCarriesMarker(c: Category, title: string)
    ensures Contains(ReplyText(c, title), Marker)
  {
    var text := ReplyText(c, title);
    assert Lead + Marker <= Heading(c) <= text;
    ContainsAfterPrefix(text, Lead, Marker);
  }

  /** An issue that receives a reply counts as answered from then on. */
  lemma ReplyMarksAnswered(issue: Issue)
    ensures Responded(issue.comments + [Reply(issue)])
  {
    ReplyCarriesMarker(Classify(issue.title, issue.body), issue.title);
    assert (issue.comments + [Reply(issue)])[|issue.comments|] == Reply(issue);
  }

  /** The section letter the reply shows after the common heading: the
      first letter of the section name, or a line break for the general
      reply. */
  function SectionMark(c: Category): char {
    match c
    case ProductSync => 'P'
    case OrderSync => 'O'
    case JobQueue => 'J'
    case Configuration => 'C'
    case General => '\n'
  }

  /** The reply shows which category it answers: the character after the
      common heading (and the " - " separator) differs for every category,
      so two equal replies answer the same category. */
  lemma ReplyRevealsCategory(c1: Category, title1: string, c2: Category, title2: string)
    requires ReplyText(c1, title1) == ReplyText(c2, title2)
    ensures c1 == c2
  {
    var head := Lead + Marker + " Response";
    SectionMarkAt(c1, title1, head);
    SectionMarkAt(c2, title2, head);
  }

  /** Where the section letter sits in a reply, and what it is. */
  lemma SectionMarkAt(c: Category, title: string, head: string)
    requires head == Lead + Marker + " Response"
    ensures |ReplyText(c, title)| > |head| + 3
    ensures c == General ==> ReplyText(c, title)[|head|] == '\n'
    ensures c != General ==> ReplyText(c, title)[|head|] == ' '
    ensures c != General ==> ReplyText(c, title)[|head| + 3] == SectionMark(c)
  {
    if c == General {
      assert ReplyText(c, title) == head + "" + GeneralIntro + title;
      assert GeneralIntro[0] == '\n';
    } else {
      assert ReplyText(c, title) == head + HeadingTail(c);
    }
  }
}
