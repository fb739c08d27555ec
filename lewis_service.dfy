/** The REST resource of the Reuters news-corpus service: LewisService builds the
    query for a request, hands it to the XQuery engine and frames the records the
    engine yields inside one `LEWIS` root element, in a reusable buffer. */
module Lewis {
  import opened Wrappers
  import opened Query

  /** The corpus file the service queries. */
  const XML_FILE: string := "reut2-003.xml"

  /** The opening and closing text written around the records. */
  const OPEN_ROOT: string := "<LEWIS>\n"
  const CLOSE_ROOT: string := "</LEWIS>"

  /** XQException, split by where the engine gave up: compiling the query in
      `prepareExpression`, or evaluating it in `executeQuery`, `next` or
      `getItemAsString`. */
  datatype XQError = QueryError | EvaluationError

  /** How the cursor over the query's results ends: `next()` reports no more
      items, or it throws. */
  datatype Outcome = Exhausted | Fault

  /** What the XQuery engine does with one query string: `prepareExpression`
      rejects the query, or evaluation yields a finite run of serialized items
      and then ends as `end` says. A throwing `executeQuery` is `Rows([], Fault)`:
      no item was read. */
  datatype Execution = NotPrepared | Rows(items: seq<string>, end: Outcome)

  /** All fragments in order, with nothing between them. */
  function Concat(fragments: seq<string>): string
    decreases |fragments|
  {
    if fragments == [] then ""
    else Concat(fragments[..|fragments| - 1]) + fragments[|fragments| - 1]
  }

  /** The response document for a run of fragments. */
  function Framed(fragments: seq<string>): string
  {
    OPEN_ROOT + Concat(fragments) + CLOSE_ROOT
  }

  /** The response to one request, as a function of the engine's execution of
      its query alone. */
  function Assemble(execution: Execution): Result<string, XQError>
  {
    match execution
    case NotPrepared => Failure(QueryError)
    case Rows(items, Fault) => Failure(EvaluationError)
    case Rows(items, Exhausted) => Success(Framed(items))
  }

  /** Concatenation distributes over splitting the fragment run. */
  lemma {:induction false} ConcatAppend(a: seq<string>, b: seq<string>)
    ensures Concat(a + b) == Concat(a) + Concat(b)
    decreases |b|
  {
    if b == [] {
      assert a + b == a;
    } else {
      var ab, last := a + b, |b| - 1;
      assert ab[..|ab| - 1] == a + b[..last];
      assert ab[|ab| - 1] == b[last];
      ConcatAppend(a, b[..last]);
      calc {
        Concat(ab);
        Concat(a + b[..last]) + b[last];
        Concat(a) + Concat(b[..last]) + b[last];
        Concat(a) + (Concat(b[..last]) + b[last]);
        Concat(a) + Concat(b);
      }
    }
  }

  /** Appending the next fragment to a buffer that holds a prefix of the run
      extends that prefix by one. */
  lemma AppendNext(start: string, fragments: seq<string>, i: nat)
    requires i < |fragments|
    ensures start + Concat(fragments[..i]) + fragments[i] == start + Concat(fragments[..i + 1])
  {
    assert fragments[..i + 1][..i] == fragments[..i];
  }

  lemma ConcatSingle(fragment: string)
    ensures Concat([fragment]) == fragment
  {
    assert [fragment][..0] == [];
  }

  /** No records: the empty root element, with only the newline inside. */
  lemma FramedEmpty()
    ensures Framed([]) == "<LEWIS>\n</LEWIS>"
  {
  }

  /** Three records: their texts in the order received, no separators. */
  lemma FramedThree(f1: string, f2: string, f3: string)
    ensures Framed([f1, f2, f3]) == "<LEWIS>\n" + f1 + f2 + f3 + "</LEWIS>"
  {
    assert [f1, f2, f3][..2] == [f1, f2];
    assert [f1, f2][..1] == [f1];
    ConcatSingle(f1);
    assert Concat([f1, f2, f3]) == f1 + f2 + f3;
    assert OPEN_ROOT + (f1 + f2 + f3) + CLOSE_ROOT == "<LEWIS>\n" + f1 + f2 + f3 + "</LEWIS>";
  }

  /** Where the i-th fragment starts in the response document. */
  function FragmentStart(fragments: seq<string>, i: nat): nat
    requires i <= |fragments|
  {
    |OPEN_ROOT| + |Concat(fragments[..i])|
  }

  /** Every fragment sits, unchanged, right after the root's opening text and the
      fragments before it; so the order is the order received and nothing is put
      between two fragments. */
  lemma {:induction false} FragmentAt(fragments: seq<string>, i: nat)
    requires i < |fragments|
    ensures FragmentStart(fragments, i + 1) == FragmentStart(fragments, i) + |fragments[i]|
    ensures FragmentStart(fragments, i + 1) <= |Framed(fragments)|
    ensures Framed(fragments)[FragmentStart(fragments, i)..FragmentStart(fragments, i + 1)] == fragments[i]
  {
    var before, after := fragments[..i], fragments[i + 1..];
    assert fragments[..i + 1][..i] == before;
    assert fragments == fragments[..i + 1] + after;
    ConcatAppend(fragments[..i + 1], after);
    var doc := Framed(fragments);
    assert doc == OPEN_ROOT + Concat(before) + fragments[i] + (Concat(after) + CLOSE_ROOT);
  }

  /** The response document opens and closes the root element around exactly
      the concatenated fragments. */
  lemma FramedParts(fragments: seq<string>)
    ensures |Framed(fragments)| == |OPEN_ROOT| + |Concat(fragments)| + |CLOSE_ROOT|
    ensures Framed(fragments)[..|OPEN_ROOT|] == "<LEWIS>\n"
    ensures Framed(fragments)[|OPEN_ROOT|..|Framed(fragments)| - |CLOSE_ROOT|] == Concat(fragments)
    ensures Framed(fragments)[|Framed(fragments)| - |CLOSE_ROOT|..] == "</LEWIS>"
  {
  }

  /** LewisService of the source, with its reusable result buffer `sbResults`. */
  class LewisService {
    const xQueryService: XQueryService
    var sbResults: string

    constructor ()
      ensures xQueryService == XQueryService(XML_FILE)
      ensures sbResults == ""
    {
      sbResults := "";
      xQueryService := XQueryService(XML_FILE);
    }

    /** getXml: clears the buffer, writes the opening tag, appends every item of
        the result cursor in order, writes the closing tag and returns the buffer.
        The engine is given as a function from query text to its execution. On an
        exception the buffer keeps what was written so far and nothing is
        returned. */
    method GetXml(id: string, content: string, engine: string -> Execution) returns (r: Result<string, XQError>)
      modifies this
      ensures r == Assemble(engine(xQueryService.GetLewisXQuery(id, content)))
      ensures var execution := engine(xQueryService.GetLewisXQuery(id, content));
              sbResults == if execution.NotPrepared? then OPEN_ROOT
                           else if execution.end == Fault then OPEN_ROOT + Concat(execution.items)
                           else Framed(execution.items)
    {
      var xquery := xQueryService.GetLewisXQuery(id, content);
      sbResults := "";
      sbResults := sbResults + OPEN_ROOT;
      var execution := engine(xquery);
      if execution.NotPrepared? {
        return Failure(QueryError);
      }
      var items := execution.items;
      var i := 0;
      while i < |items|
        invariant 0 <= i <= |items|
        invariant sbResults == OPEN_ROOT + Concat(items[..i])
      {
        AppendNext(OPEN_ROOT, items, i);
        sbResults := sbResults + items[i];
        i := i + 1;
      }
      assert items[..i] == items;
      if execution.end == Fault {
        return Failure(EvaluationError);
      }
      sbResults := sbResults + CLOSE_ROOT;
      r := Success(sbResults);
    }
  }

  /** Two calls with the same parameters on the same instance return the same
      response, whatever the buffer held before and whatever request came in
      between: the buffer carries nothing from one call to the next. */
  method CallsAreIndependent(service: LewisService, id: string, content: string,
                             otherId: string, otherContent: string, engine: string -> Execution)
    returns (first: Result<string, XQError>, second: Result<string, XQError>)
    modifies service
    ensures first == second
  {
    first := service.GetXml(id, content, engine);
    var _ := service.GetXml(otherId, otherContent, engine);
    second := service.GetXml(id, content, engine);
  }
}
