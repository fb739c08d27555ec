# Reuters news-corpus search service: query builder and result framer

This project models the core of a small REST service over David Lewis' Reuters
news corpus (`reut2-003.xml`, a `LEWIS` root holding `REUTERS` records). A GET
request carries two optional parameters: `id`, the name of a node or attribute,
and `content`, a search text. The service works in two steps:

1. `XQueryService.getLewisXQuery` turns the two strings into an XQuery.
   - It always writes the `for` clause over `doc('<file>')/LEWIS/REUTERS`.
   - It adds a full-text `where` clause when only `content` is given.
   - It adds a node-or-attribute `where` clause when both are given.
   - It always ends with ` return $x`.
   - An `id` without `content` is ignored.
2. `LewisService.getXml` runs that query on the XQuery engine. It clears its
   reusable `sbResults` buffer, writes `<LEWIS>` and a newline, appends every
   result item in order, writes `</LEWIS>` and returns the buffer.

Files:

- `wrappers.dfy`: `Option` and `Result`.
- `string_format.dfy` (module `StringFormat`): Java's `String.format` limited to
  `%s` conversions, which is all the templates use. A missing argument gives
  `None`, where Java throws.
- `xquery_service.dfy` (module `Query`): the four template constants, the
  `XQueryService` value type with `GetLewisXQuery`, and the lemmas about the
  query it builds.
- `lewis_service.dfy` (module `Lewis`): the `LewisService` class with its
  `sbResults` buffer, the `GetXml` loop, and the lemmas about the framed
  response.

The XQuery engine is a parameter `engine: string -> Execution`. Given a query
text, either `prepareExpression` rejects it (`NotPrepared`), or evaluation yields
a finite run of serialized items and then ends normally (`Exhausted`) or by
throwing (`Fault`). A throwing `executeQuery` is a run with no items that ends in
`Fault`.

Facts about the code that the model keeps:

- The response's root is `<LEWIS>` followed by a newline, then the items, then
  `</LEWIS>` (`LewisService.java` lines 80 and 89).
- The code throws one exception type, `XQException`. The model splits it into
  the two cases of `XQError`: `QueryError` when `prepareExpression` rejects the
  query (line 82), and `EvaluationError` when `executeQuery`, `next` or
  `getItemAsString` throws (lines 83-87).
- After an exception, `getXml` returns nothing, and the instance's buffer keeps
  the opening tag and the items appended so far. `GetXml` states this buffer
  state.

## Model

| member | source | states |
|---|---|---|
| `StringFormat.Format` | src/java/qatask/LewisService.java:189-201 | A template without `%` formats to itself, whatever the arguments |
| `StringFormat.FormatSplit` | src/java/qatask/LewisService.java:189-201 | Text without `%`, then `%s`, then a tail formats to that text, the first argument verbatim, then the tail formatted with the remaining arguments |
| `StringFormat.FormatOne` | src/java/qatask/LewisService.java:189-194 | A template of percent-free text, one `%s` and percent-free text formats to the two texts with the argument between them |
| `StringFormat.FormatTwo` | src/java/qatask/LewisService.java:199-201 | A template with two `%s` between percent-free texts takes its two arguments in order: first into the first slot, second into the second |
| `Query.ForTemplate` | src/java/qatask/LewisService.java:121 | `XQUERY_FOR` with the file path gives `for $x in doc('<path>')/LEWIS/REUTERS` |
| `Query.ContainsAllTemplate` | src/java/qatask/LewisService.java:127 | `XQUERY_CONTAINS_ALL` with the text gives `contains(string($x), '<content>')` |
| `Query.ContainsNodeTemplate` | src/java/qatask/LewisService.java:133 | `XQUERY_CONTAINS_NODE` puts the identifier in the path `$x//<id>` and the text in the quoted literal, in that order |
| `Query.ContainsAttributeTemplate` | src/java/qatask/LewisService.java:139 | `XQUERY_CONTAINS_ATTRIBUTE` puts the identifier in the attribute path `$x//@<id>` and the text in the quoted literal |
| `Query.XQueryService.GetLewisXQuery` | src/java/qatask/LewisService.java:186-206 | Every query starts with the rendered `for` clause and ends with ` return $x` |
| `Query.QueryByMode` | src/java/qatask/LewisService.java:189-204 | Every query is the `for` clause, then the single `where` clause of its mode, then ` return $x`. The mode is `Unfiltered` when the text is empty, `FullText` for text with no identifier, and `Targeted` for both. So at most one `where` clause is ever emitted |
| `Query.UnfilteredQuery` | src/java/qatask/LewisService.java:186-205 | With an empty text, and any identifier including the empty one, the query is exactly the `for` clause plus ` return $x`, with no `where` |
| `Query.FullTextQuery` | src/java/qatask/LewisService.java:192-195 | With only a text, the query is the `for` clause, ` where `, `contains(string($x), '<content>')`, then ` return $x` |
| `Query.TargetedQuery` | src/java/qatask/LewisService.java:197-202 | With both inputs, the `where` clause is the node test, then ` or `, then the attribute test |
| `Query.IdentifierIgnoredWithoutContent` | src/java/qatask/LewisService.java:192-202 | For every identifier, an empty text gives the same query as two empty inputs |
| `Query.PathSplicedVerbatim` | src/java/qatask/LewisService.java:189 | The corpus path occurs unchanged in every query |
| `Query.ContentSplicedVerbatim` | src/java/qatask/LewisService.java:192-202 | The search text occurs unchanged in every query, quotes included (no escaping) |
| `Query.IdentifierSplicedVerbatim` | src/java/qatask/LewisService.java:197-202 | Whenever a text is given, the identifier occurs unchanged in the query |
| `Lewis.LewisService.constructor` | src/java/qatask/LewisService.java:56-59 | A new service has an empty buffer and queries `reut2-003.xml` |
| `Lewis.LewisService.GetXml` | src/java/qatask/LewisService.java:72-92 | The result is `Failure(QueryError)` when `prepareExpression` rejects the query. It is `Failure(EvaluationError)` when executing the query or reading its results faults, and otherwise `Success` of the framed items. The buffer ends as the opening tag alone, the opening tag plus the items read, or the framed document. None of this depends on the buffer's earlier contents |
| `Lewis.CallsAreIndependent` | src/java/qatask/LewisService.java:79-80 | Two calls with the same parameters on one instance return the same response, even with another request in between |
| `Lewis.ConcatAppend` | src/java/qatask/LewisService.java:85-87 | Appending the items of two runs one after the other gives the two concatenations joined |
| `Lewis.FramedEmpty` | src/java/qatask/LewisService.java:79-89 | No result items give exactly `<LEWIS>` plus a newline plus `</LEWIS>` |
| `Lewis.FramedThree` | src/java/qatask/LewisService.java:79-91 | Items f1, f2, f3 give `<LEWIS>` plus a newline, then f1 + f2 + f3 in that order, then `</LEWIS>` |
| `Lewis.FragmentAt` | src/java/qatask/LewisService.java:85-87 | Item i appears unchanged in the response, immediately after the opening text and items 0..i-1 and immediately before item i+1: order is kept and nothing separates items |
| `Lewis.FramedParts` | src/java/qatask/LewisService.java:80-89 | The response is the opening text, then exactly the concatenated items, then the closing tag |

## Left out

- JAX-RS annotations and the defaulting of absent parameters to `""` (lines 70-74) are transport plumbing. The parameters are plain strings that may be empty.
- The Saxon XQJ engine (`SaxonXQDataSource`, `getConnection`, `prepareExpression`, `executeQuery`, `next`, `getItemAsString`) is foreign code. It is replaced by the `engine` parameter, so XQuery evaluation and the XML well-formedness of items are not modelled.
- The static `xQueryDataSrc` and `xQueryConnection`, their getters `getxQueryDataSrc` and `getConnection`, and the `XQueryService` constructor's connection set-up (lines 105-109, 147-169) are process-wide resource handling. A failure to connect in the `LewisService` constructor is not modelled either. `XQueryService` keeps only its file path.
- The result cursor is a finite sequence that the loop reads front to back. Cancelling a request midway, concurrent use of the shared connection, and concurrent `getXml` calls on one `LewisService` instance (which would interleave their appends to the shared `sbResults` field, lines 48 and 79-87) are not modelled: each `GetXml` call runs alone.
- `StringFormat.Format` models only the `%s` conversion. The four templates contain no other `%` sequence.
- `XML_FILE` is taken as the path as written. Resolving it against the working directory is engine behaviour.

