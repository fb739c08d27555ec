/** The query builder of the Reuters news-corpus service: XQueryService turns the
    two request parameters, a node-or-attribute identifier and a search text, into
    an XQuery over the records (`REUTERS` elements) under the `LEWIS` root of the
    corpus file. */
module Query {
  import opened Wrappers
  import opened StringFormat

  // The four templates of the source, each written as its literal text split
  // around its `%s` conversions (the concatenation is the same string).

  /** The `for` clause; the placeholder is the path of the corpus file. */
  const XQUERY_FOR: string := "for $x in doc('" + "%s" + "')/LEWIS/REUTERS"
  /** Full-text filter over all text of a record; the placeholder is the search text. */
  const XQUERY_CONTAINS_ALL: string := "contains(string($x), '" + "%s" + "')"
  /** Filter on the text of descendant nodes named by the first placeholder. */
  const XQUERY_CONTAINS_NODE: string := "contains(string($x//" + "%s" + "), '" + "%s" + "')"
  /** Filter on the value of descendant attributes named by the first placeholder. */
  const XQUERY_CONTAINS_ATTRIBUTE: string := "contains(string($x//@" + "%s" + "), '" + "%s" + "')"

  /** The `for` clause as rendered for a given corpus file. */
  function ForClause(xmlFilePath: string): string
  {
    "for $x in doc('" + xmlFilePath + "')/LEWIS/REUTERS"
  }

  /** The three mutually exclusive shapes a query can take. */
  datatype Mode = Unfiltered | FullText | Targeted

  /** The decision table of getLewisXQuery: only emptiness of the inputs matters,
      and an identifier without a search text selects no filter at all. */
  function SelectMode(identifier: string, content: string): Mode
  {
    if content == "" then Unfiltered
    else if identifier == "" then FullText
    else Targeted
  }

  /** The filter clauses as rendered from their templates. */
  function ContainsAll(content: string): string
  {
    "contains(string($x), '" + content + "')"
  }

  function ContainsNode(identifier: string, content: string): string
  {
    "contains(string($x//" + identifier + "), '" + content + "')"
  }

  function ContainsAttribute(identifier: string, content: string): string
  {
    "contains(string($x//@" + identifier + "), '" + content + "')"
  }

  /** The text between the `for` clause and the `return` clause, per mode. */
  function WhereClause(mode: Mode, identifier: string, content: string): string
  {
    match mode
    case Unfiltered => ""
    case FullText => " where " + ContainsAll(content)
    case Targeted => " where " + ContainsNode(identifier, content) + " or " + ContainsAttribute(identifier, content)
  }

  /** The literal texts of the templates hold no `%`. */
  lemma TemplateTextsHaveNoPercent()
    ensures '%' !in "for $x in doc('" && '%' !in "')/LEWIS/REUTERS"
    ensures '%' !in "contains(string($x), '" && '%' !in "')"
    ensures '%' !in "contains(string($x//" && '%' !in "contains(string($x//@" && '%' !in "), '"
  {
  }

  /** The four templates render to the clauses the queries are built from. */
  lemma ForTemplate(xmlFilePath: string)
    ensures Format(XQUERY_FOR, [xmlFilePath]) == Some(ForClause(xmlFilePath))
  {
    TemplateTextsHaveNoPercent();
    FormatOne("for $x in doc('", "')/LEWIS/REUTERS", xmlFilePath);
  }

  lemma ContainsAllTemplate(content: string)
    ensures Format(XQUERY_CONTAINS_ALL, [content]) == Some(ContainsAll(content))
  {
    TemplateTextsHaveNoPercent();
    FormatOne("contains(string($x), '", "')", content);
  }

  lemma ContainsNodeTemplate(identifier: string, content: string)
    ensures Format(XQUERY_CONTAINS_NODE, [identifier, content]) == Some(ContainsNode(identifier, content))
  {
    TemplateTextsHaveNoPercent();
    FormatTwo("contains(string($x//", "), '", "')", identifier, content);
  }

  lemma ContainsAttributeTemplate(identifier: string, content: string)
    ensures Format(XQUERY_CONTAINS_ATTRIBUTE, [identifier, content]) == Some(ContainsAttribute(identifier, content))
  {
    TemplateTextsHaveNoPercent();
    FormatTwo("contains(string($x//@", "), '", "')", identifier, content);
  }

  /** XQueryService of the source: it only keeps the path of the corpus file
      (the shared XQuery connection is not part of this model). */
  datatype XQueryService = XQueryService(xmlFilePath: string)
  {
    /** getLewisXQuery: the `for` clause, at most one `where` clause chosen from
        the emptiness of the two inputs, and the `return` clause, appended in
        that order. */
    function GetLewisXQuery(identifier: string, content: string): (q: string)
      ensures |ForClause(xmlFilePath)| + |" return $x"| <= |q|
      ensures q[..|ForClause(xmlFilePath)|] == ForClause(xmlFilePath)
      ensures q[|q| - |" return $x"|..] == " return $x"
    {
      ForTemplate(xmlFilePath);
      ContainsAllTemplate(content);
      ContainsNodeTemplate(identifier, content);
      ContainsAttributeTemplate(identifier, content);
      var sb := Format(XQUERY_FOR, [xmlFilePath]).value;
      var sb := if |identifier| == 0 && |content| != 0 then
        sb + " where " + Format(XQUERY_CONTAINS_ALL, [content]).value
      else sb;
      var sb := if |identifier| != 0 && |content| != 0 then
        sb + " where " + Format(XQUERY_CONTAINS_NODE, [identifier, content]).value
        + " or " + Format(XQUERY_CONTAINS_ATTRIBUTE, [identifier, content]).value
      else sb;
      sb + " return $x"
    }
  }

  /** Without a search text there is no `where` clause, whatever the identifier. */
  lemma UnfilteredQuery(service: XQueryService, identifier: string)
    ensures service.GetLewisXQuery(identifier, "") == ForClause(service.xmlFilePath) + " return $x"
  {
    ForTemplate(service.xmlFilePath);
  }

  /** Only a search text: a full-text filter over the whole record. */
  lemma FullTextQuery(service: XQueryService, content: string)
    requires content != ""
    ensures service.GetLewisXQuery("", content)
            == ForClause(service.xmlFilePath) + " where " + ContainsAll(content) + " return $x"
  {
    ForTemplate(service.xmlFilePath);
    ContainsAllTemplate(content);
  }

  /** Both parameters: the node test, then the attribute test, joined by `or`. */
  lemma TargetedQuery(service: XQueryService, identifier: string, content: string)
    requires identifier != "" && content != ""
    ensures service.GetLewisXQuery(identifier, content)
            == ForClause(service.xmlFilePath)
               + " where " + ContainsNode(identifier, content)
               + " or " + ContainsAttribute(identifier, content)
               + " return $x"
  {
    ForTemplate(service.xmlFilePath);
    ContainsNodeTemplate(identifier, content);
    ContainsAttributeTemplate(identifier, content);
  }

  /** An identifier without a search text is silently ignored. */
  lemma IdentifierIgnoredWithoutContent(service: XQueryService, identifier: string)
    ensures service.GetLewisXQuery(identifier, "") == service.GetLewisXQuery("", "")
  {
    UnfilteredQuery(service, identifier);
    UnfilteredQuery(service, "");
  }

  lemma RegroupTwo(head: string, a: string, b: string, tail: string)
    ensures head + (a + b) + tail == head + a + b + tail
  {
  }

  lemma Regroup(head: string, a: string, b: string, c: string, d: string, tail: string)
    ensures head + (a + b + c + d) + tail == head + a + b + c + d + tail
  {
  }

  /** Every query is the `for` clause, the where clause of its mode (at most one
      `where`), and the `return` clause. */
  lemma QueryByMode(service: XQueryService, identifier: string, content: string)
    ensures service.GetLewisXQuery(identifier, content)
            == ForClause(service.xmlFilePath) + WhereClause(SelectMode(identifier, content), identifier, content) + " return $x"
  {
    var head := ForClause(service.xmlFilePath);
    match SelectMode(identifier, content)
    case Unfiltered =>
      UnfilteredQuery(service, identifier);
      assert head + "" == head;
    case FullText =>
      FullTextQuery(service, content);
      RegroupTwo(head, " where ", ContainsAll(content), " return $x");
    case Targeted =>
      TargetedQuery(service, identifier, content);
      Regroup(head, " where ", ContainsNode(identifier, content), " or ", ContainsAttribute(identifier, content), " return $x");
  }

  /** `needle` sits in `hay` starting at position `i`. */
  predicate IsAt(needle: string, hay: string, i: int)
  {
    0 <= i <= |hay| - |needle| && hay[i..i + |needle|] == needle
  }

  /** `needle` occurs as a contiguous piece of `hay`. */
  predicate Occurs(needle: string, hay: string)
  {
    exists i :: 0 <= i <= |hay| - |needle| && IsAt(needle, hay, i)
  }

  /** An occurrence survives appending text after it. */
  lemma OccursInPrefix(needle: string, a: string, b: string)
    requires Occurs(needle, a)
    ensures Occurs(needle, a + b)
  {
    var i :| 0 <= i <= |a| - |needle| && IsAt(needle, a, i);
    assert (a + b)[i..i + |needle|] == a[i..i + |needle|];
    assert IsAt(needle, a + b, i);
  }

  /** An occurrence survives putting text before it. */
  lemma OccursInSuffix(needle: string, a: string, b: string)
    requires Occurs(needle, b)
    ensures Occurs(needle, a + b)
  {
    var i :| 0 <= i <= |b| - |needle| && IsAt(needle, b, i);
    assert (a + b)[|a| + i..|a| + i + |needle|] == b[i..i + |needle|];
    assert IsAt(needle, a + b, |a| + i);
  }

  /** A string occurs at the end of anything it is appended to. */
  lemma OccursAtEnd(a: string, needle: string)
    ensures Occurs(needle, a + needle)
  {
    assert (a + needle)[|a|..|a| + |needle|] == needle;
    assert IsAt(needle, a + needle, |a|);
  }

  /** The corpus path appears in every query exactly as given. */
  lemma PathSplicedVerbatim(service: XQueryService, identifier: string, content: string)
    ensures Occurs(service.xmlFilePath, service.GetLewisXQuery(identifier, content))
  {
    var path := service.xmlFilePath;
    var head := ForClause(path);
    var where := WhereClause(SelectMode(identifier, content), identifier, content);
    QueryByMode(service, identifier, content);
    OccursAtEnd("for $x in doc('", path);
    OccursInPrefix(path, "for $x in doc('" + path, "')/LEWIS/REUTERS");
    OccursInPrefix(path, head, where);
    OccursInPrefix(path, head + where, " return $x");
  }

  /** The search text appears in every query exactly as given: quote characters
      in it are not escaped. */
  lemma ContentSplicedVerbatim(service: XQueryService, identifier: string, content: string)
    ensures Occurs(content, service.GetLewisXQuery(identifier, content))
  {
    var q := service.GetLewisXQuery(identifier, content);
    var head := ForClause(service.xmlFilePath);
    if content == "" {
      assert IsAt(content, q, 0);
    } else if identifier == "" {
      FullTextQuery(service, content);
      OccursAtEnd("contains(string($x), '", content);
      OccursInPrefix(content, "contains(string($x), '" + content, "')");
      OccursInSuffix(content, head + " where ", ContainsAll(content));
      OccursInPrefix(content, head + " where " + ContainsAll(content), " return $x");
    } else {
      var node, attribute := ContainsNode(identifier, content), ContainsAttribute(identifier, content);
      TargetedQuery(service, identifier, content);
      OccursAtEnd("contains(string($x//" + identifier + "), '", content);
      OccursInPrefix(content, "contains(string($x//" + identifier + "), '" + content, "')");
      OccursInSuffix(content, head + " where ", node);
      OccursInPrefix(content, head + " where " + node, " or ");
      OccursInPrefix(content, head + " where " + node + " or ", attribute);
      OccursInPrefix(content, head + " where " + node + " or " + attribute, " return $x");
    }
  }

  /** When a search text is given, the identifier appears in the query exactly as
      given (without one, it is dropped: IdentifierIgnoredWithoutContent). */
  lemma IdentifierSplicedVerbatim(service: XQueryService, identifier: string, content: string)
    requires content != ""
    ensures Occurs(identifier, service.GetLewisXQuery(identifier, content))
  {
    var q := service.GetLewisXQuery(identifier, content);
    var head := ForClause(service.xmlFilePath);
    if identifier == "" {
      assert IsAt(identifier, q, 0);
    } else {
      var node, attribute := ContainsNode(identifier, content), ContainsAttribute(identifier, content);
      TargetedQuery(service, identifier, content);
      OccursAtEnd("contains(string($x//", identifier);
      OccursInPrefix(identifier, "contains(string($x//" + identifier, "), '");
      OccursInPrefix(identifier, "contains(string($x//" + identifier + "), '", content);
      OccursInPrefix(identifier, "contains(string($x//" + identifier + "), '" + content, "')");
      OccursInSuffix(identifier, head + " where ", node);
      OccursInPrefix(identifier, head + " where " + node, " or ");
      OccursInPrefix(identifier, head + " where " + node + " or ", attribute);
      OccursInPrefix(identifier, head + " where " + node + " or " + attribute, " return $x");
    }
  }
}
