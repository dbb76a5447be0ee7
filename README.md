# smuSQL statement front end, in Dafny

A model of the statement front end of the smuSQL engine (`Engine.java`). The
engine takes one SQL-like statement as text and does the following:

- it trims the statement and splits it into tokens on runs of whitespace;
- it upper-cases the first token and picks a handler for `CREATE`, `INSERT`,
  `SELECT`, `UPDATE` or `DELETE`, replying `ERROR: Unknown command` to any
  other word;
- it runs the handler. The handlers read their fields from fixed token
  positions. `DELETE` and `UPDATE` also scan the tokens after `WHERE` into a
  list of conditions. Each entry is an `AND`/`OR` combinator or a
  (column, operator, value) predicate. `INSERT` joins the tokens from index 4,
  drops the parentheses and cuts the text at each comma.

Every handler then replies `not implemented`. The table registry is declared but
never used.

Files:

- `JavaLang.dfy` (module `JavaLang`) holds the Java library behaviour the engine
  relies on:
  - the out-of-bounds exception, as a `Result` value;
  - `String.toUpperCase` with ASCII case folding;
  - `String.trim`, which removes characters up to U+0020;
  - the `\s` character class;
  - splitting and joining;
  - removing a single character, which is what `replaceAll("\\(", "")` does.
- `WhereClause.dfy` (module `WhereClause`) holds the WHERE-clause scanner.
  `Scan` is the specification function. `ScanConditions` is the loop as the
  engine writes it: it appends to a list and bumps the index past a consumed
  value. The ghost `Lands`/`Landings` describe the indices the scan visits.
  The lemmas tie these together.
- `Engine.dfy` (module `Engine`) holds the rest:
  - tokenizing and dispatch;
  - `queryBetweenParentheses`, as a loop that builds the string;
  - the three handlers, as methods that return the fields they read or the
    exception they raise;
  - `executeSQL`.

A Java exception from reading `tokens[k]` past the end becomes
`Err(IndexOutOfBounds(k))` or `Thrown(IndexOutOfBounds(k))`. It is not a
precondition, so every statement has a defined outcome. The code throws, and
the model follows the code.

## Model

| member | source | states |
|---|---|---|
| `JavaLang.Upper` | src/main/java/edu/smu/smusql/Engine.java:11 | `toUpperCase` keeps the length, turns each lower-case ASCII letter into its upper-case partner (32 code points lower), and leaves every other character as it was |
| `JavaLang.UpperMatchesKeyword` | src/main/java/edu/smu/smusql/Engine.java:11-13 | an upper-cased word equals a keyword exactly when the word spells that keyword with each letter in either case |
| `JavaLang.Trim` | src/main/java/edu/smu/smusql/Engine.java:10 | `trim` returns an infix of the input whose two cut-off ends contain only characters up to U+0020, and which itself neither starts nor ends with one |
| `JavaLang.TrimFrame` | src/main/java/edu/smu/smusql/Engine.java:10 | text that neither starts nor ends with a character up to U+0020, framed by such characters, trims to exactly that text |
| `JavaLang.TrimStart` | src/main/java/edu/smu/smusql/Engine.java:10 | the front part dropped is made only of trimmable characters, and what remains is a suffix that does not start with one |
| `JavaLang.TrimEnd` | src/main/java/edu/smu/smusql/Engine.java:10 | the end part dropped is made only of trimmable characters, and what remains is a prefix that does not end with one |
| `JavaLang.TrimTrailingSpace` | src/main/java/edu/smu/smusql/Engine.java:107-109 | the space appended after the last token disappears in the trim |
| `JavaLang.Split` | src/main/java/edu/smu/smusql/Engine.java:34 | splitting gives at least one field, no field contains a separator, and there are at most one more fields than characters |
| `JavaLang.JoinSplit` | src/main/java/edu/smu/smusql/Engine.java:34 | joining the comma-split fields with commas gives back the value list |
| `JavaLang.SplitJoin` | src/main/java/edu/smu/smusql/Engine.java:10 | splitting parts joined by a separator gives back the parts when none of them contains a separator |
| `JavaLang.RemoveChar` | src/main/java/edu/smu/smusql/Engine.java:109 | `replaceAll` of one literal character leaves no occurrence of it and keeps every other character as often as it occurs |
| `JavaLang.RemoveCharAppend` | src/main/java/edu/smu/smusql/Engine.java:109 | removal works piece by piece, so the kept characters stay in their order |
| `JavaLang.NonEmpty` | src/main/java/edu/smu/smusql/Engine.java:10 | the non-empty fields are kept, each as often as it occurs, and the empty ones are dropped |
| `JavaLang.NonEmptyAppend` | src/main/java/edu/smu/smusql/Engine.java:10 | dropping empty fields works part by part, so the kept fields stay in their order |
| `JavaLang.NonEmptySplitPrefix` | src/main/java/edu/smu/smusql/Engine.java:10 | a non-empty piece free of separators, followed by the end or by a separator, is one non-empty field of its own |
| `JavaLang.NonEmptySplitSeparators` | src/main/java/edu/smu/smusql/Engine.java:10 | a run of separators in front adds only empty fields, so nothing survives the filter |
| `WhereClause.IsOperator` | src/main/java/edu/smu/smusql/Engine.java:113-115 | `isOperator` holds exactly for the one-character `=`, `<`, `>` and the two-character `<=`, `>=`, so `==`, `!=` and `<>` are rejected |
| `WhereClause.IsCombinator` | src/main/java/edu/smu/smusql/Engine.java:46 | a token is a combinator exactly when it spells AND or OR in any case; the `equalsIgnoreCase` test of line 81 is the same |
| `WhereClause.PrependNested` | src/main/java/edu/smu/smusql/Engine.java:48 | a proof step for the loop invariant of `ScanConditions`, not a property of the engine itself: `Prepend`, the model's way of putting entries in front of a scan's result, is associative and has the empty list as unit, so the `add` calls of line 48 one at a time equal one `Prepend` of all of them |
| `WhereClause.Scan` | src/main/java/edu/smu/smusql/Engine.java:45-57 | a scan throws only at index `length`, and only when the last token is an operator. A successful scan records no more entries than tokens scanned. Every entry is an upper-case AND/OR or a predicate with one of the five operators |
| `WhereClause.ScanConditions` | src/main/java/edu/smu/smusql/Engine.java:45-57 | the loop that bumps `i` past a consumed value produces exactly the scan's result or its exception |
| `WhereClause.Step` | src/main/java/edu/smu/smusql/Engine.java:55 | each iteration advances two indices exactly when the token is an operator (and not AND/OR), and one index otherwise |
| `WhereClause.LandingsSound` | src/main/java/edu/smu/smusql/Engine.java:45-57 | the recorded indices increase, lie in the scanned range, hold combinators or operators and are visited by the scan |
| `WhereClause.LandingsComplete` | src/main/java/edu/smu/smusql/Engine.java:46-56 | every visited combinator or operator index is recorded, so plain tokens are the only ones that emit nothing |
| `WhereClause.ScanTrace` | src/main/java/edu/smu/smusql/Engine.java:45-57 | a successful scan's entries are, in token order, one per recorded index: a combinator gives `Combinator(upper-cased word)` and an operator at `i` gives `Pred(tokens[i-1], tokens[i], tokens[i+1])` |
| `WhereClause.LandsOrdered` | src/main/java/edu/smu/smusql/Engine.java:45 | of two indices one scan visits, the later is visited from the earlier |
| `WhereClause.ValueSkipped` | src/main/java/edu/smu/smusql/Engine.java:53-55 | the value token after a visited operator is never visited, so it yields no entry even when it reads AND or an operator |
| `WhereClause.ScanFailsIff` | src/main/java/edu/smu/smusql/Engine.java:53 | the scan throws exactly when it visits an operator in last position |
| `WhereClause.ScanShift` | src/main/java/edu/smu/smusql/Engine.java:51-53 | tokens before the scan's start and its neighbour change neither the entries nor whether it throws |
| `Engine.Tokenize` | src/main/java/edu/smu/smusql/Engine.java:10 | there is always a first token. A blank statement gives exactly `[""]`. Any other statement gives tokens that are non-empty and contain no whitespace |
| `Engine.SplitSpaced` | src/main/java/edu/smu/smusql/Engine.java:10 | splitting whitespace-free tokens separated by runs of whitespace and dropping the empty fields gives back the tokens |
| `Engine.TokenizeSpaced` | src/main/java/edu/smu/smusql/Engine.java:10 | any statement made of whitespace-free tokens separated by non-empty runs of whitespace, with characters up to U+0020 before and after, tokenizes to exactly those tokens |
| `Engine.Keyword` | src/main/java/edu/smu/smusql/Engine.java:14-22 | every case label is an upper-case keyword |
| `Engine.Dispatch` | src/main/java/edu/smu/smusql/Engine.java:11-26 | a handler is chosen only when the upper-cased first token is its case label, and the default case only when it is none of them |
| `Engine.DispatchKnown` | src/main/java/edu/smu/smusql/Engine.java:11-23 | a handler is chosen exactly when the first token spells its keyword in any case |
| `Engine.DispatchUnknown` | src/main/java/edu/smu/smusql/Engine.java:24-25 | the default case is taken exactly when the first token spells none of the five keywords |
| `Engine.RemoveParens` | src/main/java/edu/smu/smusql/Engine.java:109 | no parenthesis is left, and every other character is kept as often as it occurs |
| `Engine.RemoveParensAppend` | src/main/java/edu/smu/smusql/Engine.java:109 | removing the parentheses works piece by piece, so the kept characters stay in their order |
| `Engine.BetweenParentheses` | src/main/java/edu/smu/smusql/Engine.java:104-110 | the tokens joined by single spaces, trimmed, contain no parenthesis |
| `Engine.SpaceTerminatedAppend` | src/main/java/edu/smu/smusql/Engine.java:107 | one more iteration appends the token and one space to the builder |
| `Engine.SpaceTerminated` | src/main/java/edu/smu/smusql/Engine.java:105-108 | the builder's text is empty for no tokens, and otherwise the tokens joined by single spaces plus one trailing space |
| `Engine.QueryBetweenParentheses` | src/main/java/edu/smu/smusql/Engine.java:104-110 | the loop returns the tokens from the start index, joined by single spaces and trimmed, with every parenthesis removed |
| `Engine.HasWhere` | src/main/java/edu/smu/smusql/Engine.java:44 | the WHERE test holds exactly when the token at the index exists and spells WHERE in any case; the test of line 79 on index 6 is the same |
| `Engine.SplitFieldCharsOccur` | src/main/java/edu/smu/smusql/Engine.java:34 | every character of a split field comes from the split string |
| `Engine.ParseInsert` | src/main/java/edu/smu/smusql/Engine.java:29-37 | fewer than three tokens throw at index 2. Otherwise the table is `tokens[2]`, and there is at least one value, so empty text between the parentheses gives the single value `""` as `"".split(",")` does. The values contain no comma and no parenthesis, and joined with commas they give back the text between the parentheses |
| `Engine.ParseDelete` | src/main/java/edu/smu/smusql/Engine.java:38-61 | fewer than three tokens throw at index 2. Otherwise the table is `tokens[2]`. The condition list is empty unless `tokens[3]` is WHERE in any case; then it is the scan from index 4, or that scan's exception |
| `Engine.UpdateFieldFault` | src/main/java/edu/smu/smusql/Engine.java:70-73 | a short statement throws at the first of indices 1, 3, 5 that is past its end |
| `Engine.ParseUpdate` | src/main/java/edu/smu/smusql/Engine.java:68-96 | the table, SET column and new value are `tokens[1]`, `tokens[3]`, `tokens[5]`, and reading them throws below six tokens. Conditions are scanned only when `tokens[6]` is WHERE, and that scan starts at index 5 |
| `Engine.ParseUpdateIntended` | src/main/java/edu/smu/smusql/Engine.java:68-96 | as `ParseUpdate`, but the scan starts right after WHERE, at index 7 |
| `Engine.UpdateOffsetEffect` | src/main/java/edu/smu/smusql/Engine.java:79-80 | scanning from 5 adds, in front of the WHERE clause's entries, at most the SET value's own entry. Otherwise the result equals the scan from 7, and it throws on exactly the same statements |
| `Engine.UpdateOffsetCounterexample` | src/main/java/edu/smu/smusql/Engine.java:79-93 | for `UPDATE t SET c = or WHERE id = 1`, the scan from 5 records a spurious `OR` before `(id, =, 1)` |
| `Engine.WhereClauseAgreement` | src/main/java/edu/smu/smusql/Engine.java:44-45 | a DELETE and an UPDATE whose scans start right after WHERE read the same WHERE clause into the same conditions |
| `Engine.ExecuteSQL` | src/main/java/edu/smu/smusql/Engine.java:9-27 | an unknown first word replies exactly `ERROR: Unknown command`, and only it does. CREATE and SELECT reply `not implemented`. INSERT, DELETE and UPDATE reply `not implemented` unless one of their token reads throws, and the result says which index threw |
| `Engine.BlankIsUnknown` | src/main/java/edu/smu/smusql/Engine.java:10-11 | a blank statement, made only of characters up to U+0020, reaches the default case |

## Left out

- The table registry `data` and the `Table` type are left out. The code never reads or writes the registry, and `Table` is not part of this model.
- The bodies of `select` and `create` and the rest of `insert` are left out. They only reply `not implemented`.
- `ColumnNode` is left out. It is a holder with a constructor and a getter, and its parent `ExpressionNode` is not part of this model.
- No storage, predicate evaluation or row mutation exists in this code, so none is modelled.
- Case folding is ASCII only and ignores the default locale. Java's `toUpperCase` and `equalsIgnoreCase` also fold other Unicode letters, and the two differ from each other on a few of them. `toUpperCase` also follows the default locale: under a Turkish locale `"insert".toUpperCase()` is `"İNSERT"`, so a lower-case `insert` gets `ERROR: Unknown command` there. `DispatchKnown`, which lets every casing reach the handler, holds only under a locale that folds the ASCII letters in the usual way.
- Strings are sequences of Dafny characters, not UTF-16 code units.
- `split` and `replaceAll` are modelled for the literal patterns the engine passes. The general regular-expression engine is not.
- Engine.ParseInsert: keeps the trailing empty fields that Java's `split(",")` drops (`"a,b,"` gives three values here and two in Java).
- WhereClause.ScanConditions: requires a start index of at least 1. The scan reads `tokens[i-1]`, and both call sites start at 4 or 5, so a start of 0 never occurs.
- The engine is an object, but no method changes its fields. The handlers are therefore module-level methods, not methods of a class.
- Engine.ExecuteSQL: calls `ParseUpdateIntended`, not the as-written `ParseUpdate`. Its contract states the reply in terms of the as-written scan from index 5, and `UpdateOffsetEffect` shows that both scans throw on the same statements. So the reply is the code's reply either way.

## Findings

| source | as written | input that shows it | evidently intended | confidence | as-written member | corrected member |
|---|---|---|---|---|---|---|
| src/main/java/edu/smu/smusql/Engine.java:80 | UPDATE gates its WHERE scan on `tokens[6]` but starts the scan at index 5, the SET value | `UPDATE t SET c = or WHERE id = 1` gives the conditions `[OR, (id, =, 1)]` | the scan starts right after WHERE, at index 7, as DELETE's starts at 4 after WHERE at 3; the conditions are then `[(id, =, 1)]` | high; not executed | `Engine.UpdateOffsetCounterexample` | `Engine.WhereClauseAgreement` |
