/// The statement front end of the smuSQL engine (class Engine): tokenizing a
/// statement, choosing the handler from its first word, and the token reads
/// the INSERT, DELETE and UPDATE handlers make before their unfinished bodies
/// reply "not implemented". The table registry is never read or written by
/// this code and is not modelled.
module Engine {
  import opened JavaLang
  import opened WhereClause

  const UnknownCommand := "ERROR: Unknown command"
  const NotImplemented := "not implemented"

  /** What executeSQL gives its caller: a reply string, or the exception that
      escapes from it. */
  datatype Reply = Answer(text: string) | Thrown(fault: Fault)

  /** The handler executeSQL chooses. */
  datatype Command = Create | Insert | Select | Update | Delete | Unknown

  /** The fields the INSERT handler reads: the table and the row's values. */
  datatype InsertQuery = InsertQuery(table: string, values: seq<string>)

  /** The fields the DELETE handler reads: the table and its WHERE conditions. */
  datatype DeleteQuery = DeleteQuery(table: string, conditions: seq<Condition>)

  /** The fields the UPDATE handler reads: the table, the SET column, its new
      value and the WHERE conditions. */
  datatype UpdateQuery =
    UpdateQuery(table: string, column: string, newValue: string, conditions: seq<Condition>)

  // ---------------------------------------------------------------------
  // Tokenizing

  /** query.trim().split("\\s+"): the maximal runs of non-whitespace of the
      trimmed statement; a blank statement gives the single token "". */
  function Tokenize(query: string): (tokens: seq<string>)
    ensures |tokens| >= 1
    ensures tokens == [""] <==> Trim(query) == []
    ensures Trim(query) != [] ==>
              forall t :: t in tokens ==> t != [] && Avoids(t, Whitespace)
  {
    var trimmed := Trim(query);
    if trimmed == [] then [""]
    else
      var fields := Split(trimmed, Whitespace);
      assert fields[0] != [];
      assert NonEmpty(fields) == [fields[0]] + NonEmpty(fields[1..]);
      assert NonEmpty(fields)[0] != [];
      NonEmpty(fields)
  }

  /** Statement text: the tokens with a run of whitespace between each pair
      of neighbours (gaps[k] lies between tokens[k] and tokens[k + 1]). */
  function Spaced(tokens: seq<string>, gaps: seq<string>): (s: string)
    requires |tokens| >= 1 && |gaps| == |tokens| - 1
    ensures |tokens[0]| <= |s| && s[..|tokens[0]|] == tokens[0]
    ensures var last := tokens[|tokens| - 1]; |last| <= |s| && s[|s| - |last|..] == last
  {
    if |tokens| == 1 then tokens[0]
    else
      var rest := Spaced(tokens[1..], gaps[1..]);
      assert (tokens[0] + gaps[0] + rest)[..|tokens[0]|] == tokens[0];
      tokens[0] + gaps[0] + rest
  }

  /** The whitespace split of spaced tokens, without its empty fields, is
      the tokens. */
  lemma {:induction false} SplitSpaced(tokens: seq<string>, gaps: seq<string>)
    requires |tokens| >= 1 && |gaps| == |tokens| - 1
    requires forall k :: 0 <= k < |tokens| ==> tokens[k] != [] && Avoids(tokens[k], Whitespace)
    requires forall k :: 0 <= k < |gaps| ==> gaps[k] != [] && AllIn(gaps[k], Whitespace)
    ensures NonEmpty(Split(Spaced(tokens, gaps), Whitespace)) == tokens
  {
    if |tokens| == 1 {
      NonEmptySplitPrefix(tokens[0], [], Whitespace);
      assert tokens[0] + [] == tokens[0];
    } else {
      var rest := Spaced(tokens[1..], gaps[1..]);
      assert Spaced(tokens, gaps) == tokens[0] + (gaps[0] + rest);
      SplitSpaced(tokens[1..], gaps[1..]);
      SplitTokenGap(tokens[0], gaps[0], rest);
      assert tokens == [tokens[0]] + tokens[1..];
    }
  }

  /** A token and a run of whitespace in front of the rest add the token
      alone to the rest's fields. */
  lemma SplitTokenGap(t: string, g: string, rest: string)
    requires t != [] && Avoids(t, Whitespace)
    requires g != [] && AllIn(g, Whitespace)
    ensures NonEmpty(Split(t + (g + rest), Whitespace)) == [t] + NonEmpty(Split(rest, Whitespace))
  {
    NonEmptySplitSeparators(g, rest, Whitespace);
    assert (g + rest)[0] == g[0];
    NonEmptySplitPrefix(t, g + rest, Whitespace);
  }

  /** Any statement made of whitespace-free tokens separated by runs of
      whitespace, with trimmable characters before and after, tokenizes to
      exactly those tokens. */
  lemma TokenizeSpaced(lead: string, tokens: seq<string>, gaps: seq<string>, trail: string)
    requires AllTrimmable(lead) && AllTrimmable(trail)
    requires |tokens| >= 1 && |gaps| == |tokens| - 1
    requires forall k :: 0 <= k < |tokens| ==> tokens[k] != [] && Avoids(tokens[k], Whitespace)
    requires forall k :: 0 <= k < |gaps| ==> gaps[k] != [] && AllIn(gaps[k], Whitespace)
    requires !IsTrimmable(tokens[0][0])
    requires !IsTrimmable(tokens[|tokens| - 1][|tokens[|tokens| - 1]| - 1])
    ensures Tokenize(lead + Spaced(tokens, gaps) + trail) == tokens
  {
    var body := Spaced(tokens, gaps);
    var first, last := tokens[0], tokens[|tokens| - 1];
    assert body[0] == body[..|first|][0];
    assert body[|body| - 1] == body[|body| - |last|..][|last| - 1];
    TrimFrame(lead, body, trail);
    SplitSpaced(tokens, gaps);
  }

  // ---------------------------------------------------------------------
  // Dispatch

  /** The word of the switch case that selects a handler. */
  function Keyword(c: Command): (k: string)
    requires c != Unknown
    ensures IsKeyword(k)
  {
    match c
    case Create => "CREATE"
    case Insert => "INSERT"
    case Select => "SELECT"
    case Update => "UPDATE"
    case Delete => "DELETE"
  }

  /** The switch of executeSQL on the upper-cased first token: a handler is
      chosen only when the upper-cased token is its keyword, and the default
      case only when it is none of them. */
  function Dispatch(first: string): (c: Command)
    ensures c != Unknown ==> Upper(first) == Keyword(c)
    ensures c == Unknown ==> forall k :: k != Unknown ==> Upper(first) != Keyword(k)
  {
    var word := Upper(first);
    if word == "CREATE" then Create
    else if word == "INSERT" then Insert
    else if word == "SELECT" then Select
    else if word == "UPDATE" then Update
    else if word == "DELETE" then Delete
    else Unknown
  }

  /** Each handler is reached by exactly the spellings of its keyword in any
      mix of cases. */
  lemma DispatchKnown(first: string, c: Command)
    requires c != Unknown
    ensures Dispatch(first) == c <==> SpelledAs(first, Keyword(c))
  {
    UpperMatchesKeyword(first, Keyword(c));
  }

  /** Every first token that spells none of the five keywords falls to the
      default case. */
  lemma DispatchUnknown(first: string)
    ensures Dispatch(first) == Unknown <==>
              forall c :: c != Unknown ==> !SpelledAs(first, Keyword(c))
  {
    forall c | c != Unknown
      ensures Dispatch(first) == c <==> SpelledAs(first, Keyword(c))
    {
      DispatchKnown(first, c);
    }
    if Dispatch(first) != Unknown {
      DispatchKnown(first, Dispatch(first));
    }
  }

  // ---------------------------------------------------------------------
  // queryBetweenParentheses

  /** tokens from index start on (none when start is past the end). */
  function Suffix(tokens: seq<string>, start: nat): seq<string>
  {
    if start <= |tokens| then tokens[start..] else []
  }

  /** s without any ( or ): every other character is kept as often as it
      occurs. */
  function RemoveParens(s: string): (r: string)
    ensures '(' !in r && ')' !in r
    ensures multiset(r) == multiset(s)['(' := 0][')' := 0]
    ensures forall x :: x in r <==> x in s && x != '(' && x != ')'
  {
    RemoveChar(RemoveChar(s, '('), ')')
  }

  /** The parentheses are removed piece by piece, so what is kept stays in
      order. */
  lemma RemoveParensAppend(a: string, b: string)
    ensures RemoveParens(a + b) == RemoveParens(a) + RemoveParens(b)
  {
    RemoveCharAppend(a, b, '(');
    RemoveCharAppend(RemoveChar(a, '('), RemoveChar(b, '('), ')');
  }

  /** What queryBetweenParentheses returns: the tokens from start on, joined by
      single spaces, trimmed, with every parenthesis removed. */
  function BetweenParentheses(tokens: seq<string>, start: nat): (s: string)
    ensures '(' !in s && ')' !in s
  {
    RemoveParens(Trim(JoinWith(Suffix(tokens, start), " ")))
  }

  /** The StringBuilder's contents: each token followed by one space, that is
      the tokens joined with spaces plus one trailing space. */
  function SpaceTerminated(tokens: seq<string>): (r: string)
    ensures tokens == [] ==> r == []
    ensures tokens != [] ==> r == JoinWith(tokens, " ") + " "
  {
    if tokens == [] then [] else tokens[0] + " " + SpaceTerminated(tokens[1..])
  }

  /** One more loop iteration appends the token and a space. */
  lemma {:induction false} SpaceTerminatedAppend(tokens: seq<string>, t: string)
    ensures SpaceTerminated(tokens + [t]) == SpaceTerminated(tokens) + t + " "
  {
    if tokens == [] {
      assert [] + [t] == [t];
      assert SpaceTerminated([t]) == t + " " + SpaceTerminated([]);
    } else {
      var longer := tokens + [t];
      assert longer[0] == tokens[0] && longer[1..] == tokens[1..] + [t];
      SpaceTerminatedAppend(tokens[1..], t);
      var rest := SpaceTerminated(tokens[1..]);
      assert SpaceTerminated(longer) == tokens[0] + " " + (rest + t + " ");
      assert SpaceTerminated(tokens) == tokens[0] + " " + rest;
    }
  }

  /** The helper of lines 104-110: appends each token and a space, then trims
      and strips the parentheses. */
  method QueryBetweenParentheses(tokens: seq<string>, startIndex: nat) returns (s: string)
    ensures s == BetweenParentheses(tokens, startIndex)
  {
    var builder := "";
    var i := startIndex;
    while i < |tokens|
      invariant startIndex <= i
      invariant i <= |tokens| ==> builder == SpaceTerminated(tokens[startIndex..i])
      invariant i > |tokens| ==> i == startIndex && builder == []
      decreases |tokens| - i
    {
      assert tokens[startIndex..i + 1] == tokens[startIndex..i] + [tokens[i]];
      SpaceTerminatedAppend(tokens[startIndex..i], tokens[i]);
      builder := builder + tokens[i] + " ";
      i := i + 1;
    }
    var rest := Suffix(tokens, startIndex);
    if rest != [] {
      assert rest == tokens[startIndex..i];
      assert builder == JoinWith(rest, " ") + " ";
      TrimTrailingSpace(JoinWith(rest, " "));
      assert Trim(builder) == Trim(JoinWith(rest, " "));
    } else {
      assert builder == [] == JoinWith(rest, " ");
    }
    s := RemoveParens(Trim(builder));
  }

  // ---------------------------------------------------------------------
  // The handlers

  /** tokens[k] is WHERE in any case: the token exists and spells WHERE with
      each letter in either case. */
  predicate HasWhere(tokens: seq<string>, k: nat)
    ensures HasWhere(tokens, k) <==> k < |tokens| && SpelledAs(tokens[k], "WHERE")
  {
    k < |tokens| && (UpperMatchesKeyword(tokens[k], "WHERE"); Upper(tokens[k]) == "WHERE")
  }

  /** INSERT INTO t VALUES (v1, ..., vn): the table is tokens[2]; the values
      are the text between the parentheses cut at each comma. */
  method ParseInsert(tokens: seq<string>) returns (r: Result<InsertQuery>)
    ensures |tokens| <= 2 ==> r == Err(IndexOutOfBounds(2))
    ensures |tokens| > 2 ==> r.Ok? && r.value.table == tokens[2]
    ensures r.Ok? ==> |r.value.values| >= 1
    ensures r.Ok? ==> JoinWith(r.value.values, ",") == BetweenParentheses(tokens, 4)
    ensures r.Ok? ==> forall v :: v in r.value.values ==> ',' !in v && '(' !in v && ')' !in v
  {
    if |tokens| <= 2 {
      return Err(IndexOutOfBounds(2));
    }
    var table := tokens[2];
    var valueList := QueryBetweenParentheses(tokens, 4);
    var values := Split(valueList, {','});
    JoinSplit(valueList, ',');
    forall v | v in values
      ensures ',' !in v && '(' !in v && ')' !in v
    {
      assert Avoids(v, {','});
      assert forall x :: x in v ==> x in valueList by {
        SplitFieldCharsOccur(valueList, {','});
      }
    }
    return Ok(InsertQuery(table, values));
  }

  /** Every character of every field of a split comes from the string. */
  lemma {:induction false} SplitFieldCharsOccur(s: string, seps: set<char>)
    ensures forall f, x :: f in Split(s, seps) && x in f ==> x in s
  {
    if s != [] {
      SplitFieldCharsOccur(s[1..], seps);
    }
  }

  /** DELETE FROM t [WHERE ...]: the table is tokens[2]; the conditions come
      from scanning after a WHERE at index 3. */
  method ParseDelete(tokens: seq<string>) returns (r: Result<DeleteQuery>)
    ensures |tokens| <= 2 ==> r == Err(IndexOutOfBounds(2))
    ensures |tokens| > 2 && !HasWhere(tokens, 3) ==> r == Ok(DeleteQuery(tokens[2], []))
    ensures HasWhere(tokens, 3) ==> (r.Ok? <==> Scan(tokens, 4).Ok?)
    ensures HasWhere(tokens, 3) && r.Ok? ==>
              r.value == DeleteQuery(tokens[2], Scan(tokens, 4).value)
    ensures r.Err? && |tokens| > 2 ==> r.fault == IndexOutOfBounds(|tokens|)
  {
    if |tokens| <= 2 {
      return Err(IndexOutOfBounds(2));
    }
    var table := tokens[2];
    var conditions: seq<Condition> := [];
    if |tokens| > 3 && Upper(tokens[3]) == "WHERE" {
      var scanned := ScanConditions(tokens, 4);
      if scanned.Err? {
        return Err(scanned.fault);
      }
      conditions := scanned.value;
    }
    return Ok(DeleteQuery(table, conditions));
  }

  /** The first of the fixed reads tokens[1], tokens[3], tokens[5] that is out
      of range for a statement of n tokens: that read fails, and every read
      before it succeeds. */
  function UpdateFieldFault(n: nat): (f: Fault)
    requires n < 6
    ensures f.index == 1 || f.index == 3 || f.index == 5
    ensures f.index >= n
    ensures f.index > 1 ==> n > 1
    ensures f.index > 3 ==> n > 3
  {
    if n <= 1 then IndexOutOfBounds(1)
    else if n <= 3 then IndexOutOfBounds(3)
    else IndexOutOfBounds(5)
  }

  /** UPDATE t SET c = v [WHERE ...], as written: the fixed reads, then, when
      tokens[6] is WHERE, a scan that starts at index 5. */
  method ParseUpdate(tokens: seq<string>) returns (r: Result<UpdateQuery>)
    ensures |tokens| < 6 ==> r == Err(UpdateFieldFault(|tokens|))
    ensures |tokens| >= 6 && !HasWhere(tokens, 6) ==>
              r == Ok(UpdateQuery(tokens[1], tokens[3], tokens[5], []))
    ensures HasWhere(tokens, 6) ==> (r.Ok? <==> Scan(tokens, 5).Ok?)
    ensures HasWhere(tokens, 6) && r.Ok? ==>
              r.value == UpdateQuery(tokens[1], tokens[3], tokens[5], Scan(tokens, 5).value)
    ensures r.Err? && |tokens| >= 6 ==> r.fault == IndexOutOfBounds(|tokens|)
  {
    if |tokens| < 6 {
      return Err(UpdateFieldFault(|tokens|));
    }
    var table := tokens[1];
    var column := tokens[3];
    var newValue := tokens[5];
    var conditions: seq<Condition> := [];
    if |tokens| > 6 && Upper(tokens[6]) == "WHERE" {
      var scanned := ScanConditions(tokens, 5);
      if scanned.Err? {
        return Err(scanned.fault);
      }
      conditions := scanned.value;
    }
    return Ok(UpdateQuery(table, column, newValue, conditions));
  }

  /** UPDATE with the scan starting right after WHERE, at index 7, as DELETE's
      starts right after its WHERE. */
  method ParseUpdateIntended(tokens: seq<string>) returns (r: Result<UpdateQuery>)
    ensures |tokens| < 6 ==> r == Err(UpdateFieldFault(|tokens|))
    ensures |tokens| >= 6 && !HasWhere(tokens, 6) ==>
              r == Ok(UpdateQuery(tokens[1], tokens[3], tokens[5], []))
    ensures HasWhere(tokens, 6) ==> (r.Ok? <==> Scan(tokens, 7).Ok?)
    ensures HasWhere(tokens, 6) && r.Ok? ==>
              r.value == UpdateQuery(tokens[1], tokens[3], tokens[5], Scan(tokens, 7).value)
    ensures r.Err? && |tokens| >= 6 ==> r.fault == IndexOutOfBounds(|tokens|)
  {
    if |tokens| < 6 {
      return Err(UpdateFieldFault(|tokens|));
    }
    var table := tokens[1];
    var column := tokens[3];
    var newValue := tokens[5];
    var conditions: seq<Condition> := [];
    if |tokens| > 6 && Upper(tokens[6]) == "WHERE" {
      var scanned := ScanConditions(tokens, 7);
      if scanned.Err? {
        return Err(scanned.fault);
      }
      conditions := scanned.value;
    }
    return Ok(UpdateQuery(table, column, newValue, conditions));
  }

  // ---------------------------------------------------------------------
  // The scan offset of UPDATE

  /** What the as-written UPDATE scan records for the SET value (index 5)
      and the WHERE keyword (index 6) before it reaches the clause. */
  function SetValueEntries(tokens: seq<string>): seq<Condition>
    requires |tokens| > 6
  {
    if IsCombinator(tokens[5]) then [Combinator(Upper(tokens[5]))]
    else if IsOperator(tokens[5]) then [Pred(tokens[4], tokens[5], tokens[6])]
    else []
  }

  /** Starting at 5 instead of 7 puts the SET value's own entry, if any, in
      front of the clause's entries and changes nothing else: both scans reach
      index 7 with the same state, so they throw on the same statements. */
  lemma UpdateOffsetEffect(tokens: seq<string>)
    requires HasWhere(tokens, 6)
    ensures Scan(tokens, 5) == Prepend(SetValueEntries(tokens), Scan(tokens, 7))
    ensures Scan(tokens, 5).Ok? <==> Scan(tokens, 7).Ok?
  {
    assert !IsOperator(tokens[6]) && !IsCombinator(tokens[6]);
    PrependNested([], [], Scan(tokens, 7));
  }

  /** A SET value that reads "or" becomes a spurious combinator in front of
      the WHERE clause's single predicate. */
  lemma UpdateOffsetCounterexample()
    ensures var u := ["UPDATE", "t", "SET", "c", "=", "or", "WHERE", "id", "=", "1"];
            HasWhere(u, 6) &&
            Scan(u, 5) == Ok([Combinator("OR"), Pred("id", "=", "1")]) &&
            Scan(u, 7) == Ok([Pred("id", "=", "1")])
  {
    var u := ["UPDATE", "t", "SET", "c", "=", "or", "WHERE", "id", "=", "1"];
    assert Upper("WHERE") == "WHERE" && Upper("or") == "OR";
    assert Upper("id")[0] == 'I' && |Upper("=")| == 1;
    assert u[5] == "or" && u[6] == "WHERE" && u[7] == "id" && u[8] == "=" && u[9] == "1";
    assert !IsCombinator(u[8]) && IsOperator(u[8]);
    assert Scan(u, 10) == Ok([]);
    assert [Pred("id", "=", "1")] + [] == [Pred("id", "=", "1")];
    assert Scan(u, 8) == Prepend([Pred("id", "=", "1")], Scan(u, 10));
    assert Scan(u, 7) == Scan(u, 8);
    assert Scan(u, 6) == Scan(u, 7);
    assert IsCombinator(u[5]);
    assert Scan(u, 5) == Prepend([Combinator("OR")], Scan(u, 6));
    assert [Combinator("OR")] + [Pred("id", "=", "1")] == [Combinator("OR"), Pred("id", "=", "1")];
  }

  /** With the scan started after WHERE, UPDATE and DELETE read the same
      WHERE clause into the same conditions. */
  lemma WhereClauseAgreement(del: seq<string>, upd: seq<string>)
    requires |del| >= 3 && |upd| >= 6 && del[3..] == upd[6..]
    ensures Scan(del, 4).Ok? <==> Scan(upd, 7).Ok?
    ensures Scan(del, 4).Ok? ==> Scan(del, 4) == Scan(upd, 7)
  {
    var clause := del[3..];
    assert del == del[..3] + clause && upd == upd[..6] + clause;
    ScanShift(del[..3], clause, 1);
    ScanShift(upd[..6], clause, 1);
  }

  // ---------------------------------------------------------------------
  // executeSQL

  /** Tokenizes the statement, chooses the handler from the first token and
      runs it. Every handler that gets past its token reads replies
      "not implemented"; a read past the end of the tokens throws. */
  method ExecuteSQL(query: string) returns (r: Reply)
    ensures var tokens := Tokenize(query);
            Dispatch(tokens[0]) == Unknown ==> r == Answer(UnknownCommand)
    ensures var tokens := Tokenize(query);
            Dispatch(tokens[0]) in {Create, Select} ==> r == Answer(NotImplemented)
    ensures var tokens := Tokenize(query);
            Dispatch(tokens[0]) == Insert ==>
              r == if |tokens| <= 2 then Thrown(IndexOutOfBounds(2)) else Answer(NotImplemented)
    ensures var tokens := Tokenize(query);
            Dispatch(tokens[0]) == Delete ==>
              r == if |tokens| <= 2 then Thrown(IndexOutOfBounds(2))
                   else if HasWhere(tokens, 3) && Scan(tokens, 4).Err? then Thrown(IndexOutOfBounds(|tokens|))
                   else Answer(NotImplemented)
    ensures var tokens := Tokenize(query);
            Dispatch(tokens[0]) == Update ==>
              r == if |tokens| < 6 then Thrown(UpdateFieldFault(|tokens|))
                   else if HasWhere(tokens, 6) && Scan(tokens, 5).Err? then Thrown(IndexOutOfBounds(|tokens|))
                   else Answer(NotImplemented)
    ensures r == Answer(UnknownCommand) <==> Dispatch(Tokenize(query)[0]) == Unknown
  {
    var tokens := Tokenize(query);
    var command := Dispatch(tokens[0]);
    match command {
      case Create =>
        r := Answer(NotImplemented);
      case Insert =>
        var parsed := ParseInsert(tokens);
        r := if parsed.Err? then Thrown(parsed.fault) else Answer(NotImplemented);
      case Select =>
        r := Answer(NotImplemented);
      case Update =>
        if HasWhere(tokens, 6) {
          UpdateOffsetEffect(tokens);
        }
        var parsed := ParseUpdateIntended(tokens);
        r := if parsed.Err? then Thrown(parsed.fault) else Answer(NotImplemented);
      case Delete =>
        var parsed := ParseDelete(tokens);
        r := if parsed.Err? then Thrown(parsed.fault) else Answer(NotImplemented);
      case Unknown =>
        r := Answer(UnknownCommand);
    }
  }

  /** A blank statement, made only of characters up to U+0020, has the single
      token "", which no case matches. */
  lemma BlankIsUnknown(query: string)
    requires AllTrimmable(query)
    ensures Dispatch(Tokenize(query)[0]) == Unknown
  {
    assert Tokenize(query) == [""];
    assert Upper("") == "";
  }
}
