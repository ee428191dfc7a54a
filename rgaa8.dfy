/** Criteria 8.1, 8.3 and 8.5: a page has a doctype, a language and a title. */
module Rgaa8 {
  import opened Wrappers
  import opened Types
  import opened Seqs

  /** The part of `documentElement` the 8.3 check reads: its `lang`, absent when the object has none. */
  datatype DocumentElement = DocumentElement(lang: Option<string>)

  /**
   * What the checks read off a document: whether `doctype` is set, the
   * `nodeType` of its first child (absent when it has none), its
   * `DOCUMENT_TYPE_NODE` constant, `documentElement`, `title` and `baseURI`.
   * A copy made by spreading a document object keeps only its own
   * properties, so the constant, the element and the title are absent on it
   * unless they are set by hand.
   */
  datatype Document = Document(
    hasDoctype: bool,
    firstChildNodeType: Option<int>,
    documentTypeNode: Option<int>,
    documentElement: Option<DocumentElement>,
    title: Option<string>,
    baseURI: string)

  /** The error reading a property of `undefined` raises. */
  const TypeError := "TypeError"

  const DoctypeMessage := "Document (Page) should have a doctype"
  const DoctypeFirstMessage := "Document (Page) doctype should be first"
  const LangMessage := "Document (Page) should have a lang attribute"
  const TitleMessage := "Document (Page) should have a title"

  /** The 8.1.3 test as written: the first child's node type equals the constant, two absent values being equal. */
  predicate FirstChildIsDoctype(doc: Document) {
    doc.firstChildNodeType == doc.documentTypeNode
  }

  function CheckDoctype(doc: Document): seq<Violation> {
    (if !doc.hasDoctype then [Violation(doc.baseURI, "RGAA - 8.1.1", RuleLink("8.1"), DoctypeMessage)] else [])
    + (if FirstChildIsDoctype(doc) then [Violation(doc.baseURI, "RGAA - 8.1.3", RuleLink("8.1.3"), DoctypeFirstMessage)] else [])
  }

  /** What 8.3 pushes for a document whose root element has this `lang`. */
  function LangCheck(baseURI: string, lang: Option<string>): seq<Violation> {
    if lang.None? || |lang.value| <= 0 then [Violation(baseURI, "RGAA - 8.3", RuleLink("8.3"), LangMessage)] else []
  }

  /** 8.3 on one document: destructuring `lang` out of an absent `documentElement` throws. */
  function CheckLang(doc: Document): Result<seq<Violation>, string> {
    match doc.documentElement
    case None => Failure(TypeError)
    case Some(root) => Success(LangCheck(doc.baseURI, root.lang))
  }

  /** What 8.5 pushes for a document with this title. */
  function TitleCheck(baseURI: string, title: string): seq<Violation> {
    if |title| <= 0 then [Violation(baseURI, "RGAA - 8.5", RuleLink("8.5"), TitleMessage)] else []
  }

  /** 8.5 on one document: the `length` of an absent title throws. */
  function CheckTitle(doc: Document): Result<seq<Violation>, string> {
    match doc.title
    case None => Failure(TypeError)
    case Some(title) => Success(TitleCheck(doc.baseURI, title))
  }

  /** The violations pushed so far followed by the next ones; the first throw wins. */
  function Join(x: Result<seq<Violation>, string>, y: Result<seq<Violation>, string>): Result<seq<Violation>, string> {
    match x
    case Failure(e) => Failure(e)
    case Success(u) =>
      match y
      case Failure(e) => Failure(e)
      case Success(w) => Success(u + w)
  }

  /**
   * A `forEach` that pushes what `check` finds for each document in turn; a
   * throw escapes the loop, and the violations pushed before it are lost.
   */
  function Collect(documents: seq<Document>, check: Document -> Result<seq<Violation>, string>): Result<seq<Violation>, string> {
    if documents == [] then Success([])
    else Join(Collect(documents[..|documents| - 1], check), check(documents[|documents| - 1]))
  }

  /** The violations 8.3 finds in one document, none when it throws. */
  function LangViolations(doc: Document): seq<Violation> {
    if doc.documentElement.Some? then LangCheck(doc.baseURI, doc.documentElement.value.lang) else []
  }

  /** The violations 8.5 finds in one document, none when it throws. */
  function TitleViolations(doc: Document): seq<Violation> {
    if doc.title.Some? then TitleCheck(doc.baseURI, doc.title.value) else []
  }

  /** 8.1.1 and 8.1.3, document by document. */
  method RGAA81(documents: seq<Document>) returns (wrongElement: seq<Violation>)
    ensures wrongElement == FlatMap(documents, CheckDoctype)
  {
    wrongElement := [];
    var i := 0;
    while i < |documents|
      invariant 0 <= i <= |documents|
      invariant wrongElement == FlatMap(documents[..i], CheckDoctype)
    {
      var doc := documents[i];
      FlatMapSnoc(documents[..i], doc, CheckDoctype);
      PrefixSnoc(documents, i);
      if !doc.hasDoctype {
        wrongElement := wrongElement + [Violation(doc.baseURI, "RGAA - 8.1.1", RuleLink("8.1"), DoctypeMessage)];
      }
      var doctypeIndex := doc.firstChildNodeType == doc.documentTypeNode;
      if doctypeIndex {
        wrongElement := wrongElement + [Violation(doc.baseURI, "RGAA - 8.1.3", RuleLink("8.1.3"), DoctypeFirstMessage)];
      }
      i := i + 1;
    }
    assert documents[..i] == documents;
  }

  /** 8.3, document by document; a document without `documentElement` aborts the whole call. */
  method RGAA83(documents: seq<Document>) returns (r: Result<seq<Violation>, string>)
    ensures r == Collect(documents, CheckLang)
  {
    var wrongElement := [];
    var i := 0;
    while i < |documents|
      invariant 0 <= i <= |documents|
      invariant Collect(documents[..i], CheckLang) == Success(wrongElement)
    {
      var doc := documents[i];
      PrefixSnoc(documents, i);
      assert documents[..i + 1][..i] == documents[..i];
      assert Collect(documents[..i + 1], CheckLang) == Join(Success(wrongElement), CheckLang(doc));
      if doc.documentElement.None? {
        CollectPrefixFailure(documents, i + 1, CheckLang);
        return Failure(TypeError);
      }
      var lang := doc.documentElement.value.lang;
      assert CheckLang(doc) == Success(LangCheck(doc.baseURI, lang));
      ghost var before := wrongElement;
      if lang.None? || |lang.value| <= 0 {
        wrongElement := wrongElement + [Violation(doc.baseURI, "RGAA - 8.3", RuleLink("8.3"), LangMessage)];
      }
      assert wrongElement == before + LangCheck(doc.baseURI, lang);
      assert Collect(documents[..i + 1], CheckLang) == Success(wrongElement);
      i := i + 1;
    }
    assert documents[..i] == documents;
    r := Success(wrongElement);
  }

  /** 8.5, document by document; a document without a title aborts the whole call. */
  method RGAA85(documents: seq<Document>) returns (r: Result<seq<Violation>, string>)
    ensures r == Collect(documents, CheckTitle)
  {
    var wrongElement := [];
    var i := 0;
    while i < |documents|
      invariant 0 <= i <= |documents|
      invariant Collect(documents[..i], CheckTitle) == Success(wrongElement)
    {
      var doc := documents[i];
      PrefixSnoc(documents, i);
      assert documents[..i + 1][..i] == documents[..i];
      assert Collect(documents[..i + 1], CheckTitle) == Join(Success(wrongElement), CheckTitle(doc));
      if doc.title.None? {
        CollectPrefixFailure(documents, i + 1, CheckTitle);
        return Failure(TypeError);
      }
      assert CheckTitle(doc) == Success(TitleCheck(doc.baseURI, doc.title.value));
      ghost var before := wrongElement;
      if |doc.title.value| <= 0 {
        wrongElement := wrongElement + [Violation(doc.baseURI, "RGAA - 8.5", RuleLink("8.5"), TitleMessage)];
      }
      assert wrongElement == before + TitleCheck(doc.baseURI, doc.title.value);
      assert Collect(documents[..i + 1], CheckTitle) == Success(wrongElement);
      i := i + 1;
    }
    assert documents[..i] == documents;
    r := Success(wrongElement);
  }

  /**
   * For one document: 8.1.1 is reported iff there is no doctype, 8.1.3 iff the
   * first child's node type equals the document-type constant, both may be
   * reported and then 8.1.1 comes first, and every violation names the
   * document's base URI; the 8.1.1 link is the anchor of the whole criterion 8.1.
   */
  lemma DoctypeReport(doc: Document)
    ensures var r := CheckDoctype(doc);
      && (exists k :: 0 <= k < |r| && r[k].rule == "RGAA - 8.1.1") == !doc.hasDoctype
      && (exists k :: 0 <= k < |r| && r[k].rule == "RGAA - 8.1.3") == (doc.firstChildNodeType == doc.documentTypeNode)
      && (!doc.hasDoctype && FirstChildIsDoctype(doc) ==> |r| == 2 && r[0].rule == "RGAA - 8.1.1" && r[1].rule == "RGAA - 8.1.3")
      && (forall k :: 0 <= k < |r| ==> r[k].element == doc.baseURI)
      && (forall k :: 0 <= k < |r| && r[k].rule == "RGAA - 8.1.1" ==> r[k].ruleLink == CriteriaUrl + "8.1")
  {
    var r := CheckDoctype(doc);
    if !doc.hasDoctype {
      assert r[0].rule == "RGAA - 8.1.1";
    }
    if FirstChildIsDoctype(doc) {
      assert r[|r| - 1].rule == "RGAA - 8.1.3";
    }
  }

  /**
   * A copy of a document object has neither a doctype constant nor, when it has
   * no first child, a node type: then the check as written reports 8.1.3.
   */
  lemma CopiedDocumentReportsDoctypeFirst(baseURI: string)
    ensures var doc := Document(false, None, None, None, None, baseURI);
      CheckDoctype(doc) == [
        Violation(baseURI, "RGAA - 8.1.1", RuleLink("8.1"), DoctypeMessage),
        Violation(baseURI, "RGAA - 8.1.3", RuleLink("8.1.3"), DoctypeFirstMessage)]
  {
  }

  /**
   * For one document: 8.3 throws iff there is no `documentElement` and otherwise
   * reports iff `lang` is absent or empty; 8.5 throws iff there is no title and
   * otherwise reports iff it is empty; each reports at most once.
   */
  lemma LangAndTitleReports(doc: Document)
    ensures CheckLang(doc).Failure? <==> doc.documentElement.None?
    ensures doc.documentElement.Some? ==>
      (CheckLang(doc).value != [] <==> (doc.documentElement.value.lang == None || doc.documentElement.value.lang == Some("")))
    ensures CheckTitle(doc).Failure? <==> doc.title.None?
    ensures doc.title.Some? ==> (CheckTitle(doc).value != [] <==> doc.title.value == "")
    ensures |LangViolations(doc)| <= 1 && |TitleViolations(doc)| <= 1
  {
  }

  /** Collecting over a concatenation collects over each part in turn, the first throw winning. */
  lemma {:induction false} CollectAppend(a: seq<Document>, b: seq<Document>, check: Document -> Result<seq<Violation>, string>)
    ensures Collect(a + b, check) == Join(Collect(a, check), Collect(b, check))
    decreases |b|
  {
    if b == [] {
      assert a + b == a;
      match Collect(a, check)
      case Failure(e) =>
      case Success(u) => assert u + [] == u;
    } else {
      var n := |b| - 1;
      assert (a + b)[..|a + b| - 1] == a + b[..n];
      assert (a + b)[|a + b| - 1] == b[n];
      CollectAppend(a, b[..n], check);
      match Collect(a, check)
      case Failure(e) =>
      case Success(u) =>
        match Collect(b[..n], check)
        case Failure(e) =>
        case Success(v) =>
          match check(b[n])
          case Failure(e) =>
          case Success(w) => assert u + v + w == u + (v + w);
    }
  }

  /** Once a prefix throws, the whole call throws the same error. */
  lemma CollectPrefixFailure(documents: seq<Document>, i: int, check: Document -> Result<seq<Violation>, string>)
    requires 0 <= i <= |documents|
    requires Collect(documents[..i], check).Failure?
    ensures Collect(documents, check) == Collect(documents[..i], check)
  {
    assert documents == documents[..i] + documents[i..];
    CollectAppend(documents[..i], documents[i..], check);
  }

  /** The call throws iff some document's check throws. */
  lemma {:induction false} CollectFailsIffSomeThrows(documents: seq<Document>, check: Document -> Result<seq<Violation>, string>)
    ensures Collect(documents, check).Failure? <==> exists k :: 0 <= k < |documents| && check(documents[k]).Failure?
    decreases |documents|
  {
    if documents != [] {
      var n := |documents| - 1;
      CollectFailsIffSomeThrows(documents[..n], check);
      assert forall k :: 0 <= k < n ==> documents[..n][k] == documents[k];
    }
  }

  /** When no document throws, the report is every document's violations in document order. */
  lemma {:induction false} CollectWithoutThrow(documents: seq<Document>, check: Document -> Result<seq<Violation>, string>,
                                               found: Document -> seq<Violation>)
    requires forall k :: 0 <= k < |documents| ==> check(documents[k]) == Success(found(documents[k]))
    ensures Collect(documents, check) == Success(FlatMap(documents, found))
    decreases |documents|
  {
    if documents != [] {
      var n := |documents| - 1;
      assert forall k :: 0 <= k < n ==> documents[..n][k] == documents[k];
      CollectWithoutThrow(documents[..n], check, found);
    }
  }

  /** 8.3 throws iff some document has no `documentElement`; otherwise it reports document by document. */
  lemma Throwing83(documents: seq<Document>)
    ensures Collect(documents, CheckLang).Failure? <==> exists k :: 0 <= k < |documents| && documents[k].documentElement.None?
    ensures (forall k :: 0 <= k < |documents| ==> documents[k].documentElement.Some?) ==>
      Collect(documents, CheckLang) == Success(FlatMap(documents, LangViolations))
  {
    CollectFailsIffSomeThrows(documents, CheckLang);
    forall k | 0 <= k < |documents|
      ensures CheckLang(documents[k]).Failure? <==> documents[k].documentElement.None?
    {
    }
    if forall k :: 0 <= k < |documents| ==> documents[k].documentElement.Some? {
      CollectWithoutThrow(documents, CheckLang, LangViolations);
    }
  }

  /** 8.5 throws iff some document has no title; otherwise it reports document by document. */
  lemma Throwing85(documents: seq<Document>)
    ensures Collect(documents, CheckTitle).Failure? <==> exists k :: 0 <= k < |documents| && documents[k].title.None?
    ensures (forall k :: 0 <= k < |documents| ==> documents[k].title.Some?) ==>
      Collect(documents, CheckTitle) == Success(FlatMap(documents, TitleViolations))
  {
    CollectFailsIffSomeThrows(documents, CheckTitle);
    forall k | 0 <= k < |documents|
      ensures CheckTitle(documents[k]).Failure? <==> documents[k].title.None?
    {
    }
    if forall k :: 0 <= k < |documents| ==> documents[k].title.Some? {
      CollectWithoutThrow(documents, CheckTitle, TitleViolations);
    }
  }

  /** A spread copy of a document, with neither element nor title set, makes 8.3 and 8.5 throw. */
  lemma CopiedDocumentThrows(baseURI: string)
    ensures var doc := Document(false, None, None, None, None, baseURI);
      Collect([doc], CheckLang) == Failure(TypeError) && Collect([doc], CheckTitle) == Failure(TypeError)
  {
    var doc := Document(false, None, None, None, None, baseURI);
    assert [doc][..0] == [];
  }

  /** Each document contributes its own violations in turn: the report is ordered by document. */
  lemma {:induction false} ReportsInDocumentOrder(a: seq<Document>, b: seq<Document>)
    ensures FlatMap(a + b, CheckDoctype) == FlatMap(a, CheckDoctype) + FlatMap(b, CheckDoctype)
    ensures Collect(a + b, CheckLang) == Join(Collect(a, CheckLang), Collect(b, CheckLang))
    ensures Collect(a + b, CheckTitle) == Join(Collect(a, CheckTitle), Collect(b, CheckTitle))
  {
    FlatMapAppend(a, b, CheckDoctype);
    CollectAppend(a, b, CheckLang);
    CollectAppend(a, b, CheckTitle);
  }
}
