/// The WHERE-clause scanner of Engine.delete and Engine.update: a left-to-right
/// walk over the statement's tokens that records AND/OR combinators and
/// (column, operator, value) predicates.
module WhereClause {
  import opened JavaLang

  /** One entry of the condition list. The engine stores it as a four-slot
      string array: {word, null, null, null} for a combinator and
      {null, column, operator, value} for a predicate. */
  datatype Condition =
    | Combinator(word: string)
    | Pred(column: string, op: string, value: string)

  /** The five comparison operators, compared case-sensitively: the
      one-character tokens =, <, > and the two-character tokens <= and >=,
      so ==, !=, <> and => are not operators. */
  predicate IsOperator(t: string)
    ensures IsOperator(t) <==>
              (|t| == 1 && (t[0] == '=' || t[0] == '<' || t[0] == '>')) ||
              (|t| == 2 && (t[0] == '<' || t[0] == '>') && t[1] == '=')
  {
    assert |t| == 1 ==> t == [t[0]];
    assert |t| == 2 ==> t == [t[0], t[1]];
    t == "=" || t == ">" || t == "<" || t == ">=" || t == "<="
  }

  /** AND or OR, in any case: exactly the spellings of those two words with
      each letter in either case. */
  predicate IsCombinator(t: string)
    ensures IsCombinator(t) <==> SpelledAs(t, "AND") || SpelledAs(t, "OR")
  {
    UpperMatchesKeyword(t, "AND");
    UpperMatchesKeyword(t, "OR");
    Upper(t) == "AND" || Upper(t) == "OR"
  }

  /** A token the scanner records an entry for when it lands on it. */
  predicate Emits(t: string) {
    IsCombinator(t) || IsOperator(t)
  }

  /** What a correct scan ever records: upper-cased AND or OR, or a predicate
      whose operator is one of the five. */
  predicate WellFormed(c: Condition) {
    match c
    case Combinator(w) => w == "AND" || w == "OR"
    case Pred(_, op, _) => IsOperator(op)
  }

  /** prefix, followed by the entries of r; a fault in r is passed on. */
  function Prepend(prefix: seq<Condition>, r: Result<seq<Condition>>): Result<seq<Condition>>
  {
    match r
    case Ok(cs) => Ok(prefix + cs)
    case Err(f) => Err(f)
  }

  lemma PrependNested(a: seq<Condition>, b: seq<Condition>, r: Result<seq<Condition>>)
    ensures Prepend(a, Prepend(b, r)) == Prepend(a + b, r)
    ensures Prepend([], r) == r
  {
    if r.Ok? {
      assert a + (b + r.value) == (a + b) + r.value;
      assert [] + r.value == r.value;
    }
  }

  /** The condition list the scan produces from index i on. An operator takes
      its column from the token before it and its value from the token after,
      and the scan resumes after the value; an operator in last position reads
      past the end of the array and throws. */
  function Scan(tokens: seq<string>, i: nat): (r: Result<seq<Condition>>)
    requires 1 <= i
    ensures r.Err? ==> r.fault == IndexOutOfBounds(|tokens|)
    ensures r.Err? ==> |tokens| > i && IsOperator(tokens[|tokens| - 1])
    ensures r.Ok? && i <= |tokens| ==> |r.value| <= |tokens| - i
    ensures r.Ok? ==> forall k :: 0 <= k < |r.value| ==> WellFormed(r.value[k])
    decreases |tokens| - i
  {
    if i >= |tokens| then Ok([])
    else if IsCombinator(tokens[i]) then
      Prepend([Combinator(Upper(tokens[i]))], Scan(tokens, i + 1))
    else if IsOperator(tokens[i]) then
      if i + 1 < |tokens| then
        Prepend([Pred(tokens[i - 1], tokens[i], tokens[i + 1])], Scan(tokens, i + 2))
      else
        Err(IndexOutOfBounds(i + 1))
    else
      Scan(tokens, i + 1)
  }

  /** The loop of lines 45-57 (and 80-92) of Engine.java, started at start. */
  method ScanConditions(tokens: seq<string>, start: nat) returns (r: Result<seq<Condition>>)
    requires 1 <= start
    ensures r == Scan(tokens, start)
  {
    var conditions: seq<Condition> := [];
    var i := start;
    PrependNested([], [], Scan(tokens, i));
    while i < |tokens|
      invariant start <= i
      invariant Scan(tokens, start) == Prepend(conditions, Scan(tokens, i))
      decreases |tokens| - i
    {
      if Upper(tokens[i]) == "AND" || Upper(tokens[i]) == "OR" {
        PrependNested(conditions, [Combinator(Upper(tokens[i]))], Scan(tokens, i + 1));
        conditions := conditions + [Combinator(Upper(tokens[i]))];
      } else if IsOperator(tokens[i]) {
        if i + 1 >= |tokens| {
          return Err(IndexOutOfBounds(i + 1));
        }
        PrependNested(conditions, [Pred(tokens[i - 1], tokens[i], tokens[i + 1])], Scan(tokens, i + 2));
        conditions := conditions + [Pred(tokens[i - 1], tokens[i], tokens[i + 1])];
        i := i + 1;
      }
      i := i + 1;
    }
    assert conditions + [] == conditions;
    return Ok(conditions);
  }

  // ---------------------------------------------------------------------
  // Where the scan lands

  /** The index the scan moves to from i: two on after an operator, which
      also consumes its value, and one on after anything else. */
  function Step(tokens: seq<string>, i: nat): (next: nat)
    requires i < |tokens|
    ensures next == i + 1 || next == i + 2
    ensures next == i + 2 <==> !IsCombinator(tokens[i]) && IsOperator(tokens[i])
  {
    if IsCombinator(tokens[i]) then i + 1
    else if IsOperator(tokens[i]) then i + 2
    else i + 1
  }

  /** Started at from, the scan looks at index j. */
  ghost predicate Lands(tokens: seq<string>, from: nat, j: nat)
    decreases j - from
  {
    from == j || (from < j && from < |tokens| && Lands(tokens, Step(tokens, from), j))
  }

  /** The indices, in order, at which a scan started at i records an entry. */
  ghost function Landings(tokens: seq<string>, i: nat): seq<nat>
    decreases |tokens| - i
  {
    if i >= |tokens| then []
    else if Emits(tokens[i]) then [i] + Landings(tokens, Step(tokens, i))
    else Landings(tokens, i + 1)
  }

  /** The entry a token at index j gives rise to. */
  function Entry(tokens: seq<string>, j: nat): Condition
    requires 1 <= j < |tokens| && Emits(tokens[j])
    requires IsCombinator(tokens[j]) || j + 1 < |tokens|
  {
    if IsCombinator(tokens[j]) then Combinator(Upper(tokens[j]))
    else Pred(tokens[j - 1], tokens[j], tokens[j + 1])
  }

  /** The recorded indices are increasing, lie in the scanned range, hold
      combinators or operators, and are all visited by the scan. */
  lemma {:induction false} LandingsSound(tokens: seq<string>, i: nat)
    ensures forall k :: 0 <= k < |Landings(tokens, i)| ==>
              var j := Landings(tokens, i)[k];
              i <= j < |tokens| && Emits(tokens[j]) && Lands(tokens, i, j)
    ensures forall k, m :: 0 <= k < m < |Landings(tokens, i)| ==>
              Landings(tokens, i)[k] < Landings(tokens, i)[m]
    decreases |tokens| - i
  {
    if i < |tokens| {
      var next := if Emits(tokens[i]) then Step(tokens, i) else i + 1;
      LandingsSound(tokens, next);
      assert Step(tokens, i) == i + 1 || Emits(tokens[i]);
      assert next == Step(tokens, i);
    }
  }

  /** Every visited combinator or operator index is recorded. */
  lemma {:induction false} LandingsComplete(tokens: seq<string>, i: nat, j: nat)
    requires Lands(tokens, i, j) && j < |tokens| && Emits(tokens[j])
    ensures j in Landings(tokens, i)
    decreases j - i
  {
    if i != j {
      LandingsComplete(tokens, Step(tokens, i), j);
      if !Emits(tokens[i]) {
        assert Step(tokens, i) == i + 1;
      }
    }
  }

  /** cs holds, in order, exactly the entry of each index of js. */
  predicate Traces(tokens: seq<string>, cs: seq<Condition>, js: seq<nat>) {
    |cs| == |js| &&
    forall k :: 0 <= k < |cs| ==>
      1 <= js[k] < |tokens| && Emits(tokens[js[k]]) &&
      (IsCombinator(tokens[js[k]]) || js[k] + 1 < |tokens|) &&
      cs[k] == Entry(tokens, js[k])
  }

  /** A successful scan records, in order, exactly the entry of each recorded
      index. */
  lemma ScanTrace(tokens: seq<string>, i: nat)
    requires 1 <= i && Scan(tokens, i).Ok?
    ensures Traces(tokens, Scan(tokens, i).value, Landings(tokens, i))
    decreases |tokens| - i, 1
  {
    if i >= |tokens| {
    } else if Emits(tokens[i]) {
      ScanTraceEmit(tokens, i);
    } else {
      ScanTrace(tokens, i + 1);
    }
  }

  /** ScanTrace where the scan records an entry at i. */
  lemma ScanTraceEmit(tokens: seq<string>, i: nat)
    requires 1 <= i < |tokens| && Emits(tokens[i]) && Scan(tokens, i).Ok?
    ensures Traces(tokens, Scan(tokens, i).value, Landings(tokens, i))
    decreases |tokens| - i, 0
  {
    var next := Step(tokens, i);
    assert IsCombinator(tokens[i]) || i + 1 < |tokens|;
    ScanTrace(tokens, next);
    var cs, js := Scan(tokens, next).value, Landings(tokens, next);
    assert Scan(tokens, i).value == [Entry(tokens, i)] + cs;
    assert Landings(tokens, i) == [i] + js;
    TracesCons(tokens, i, cs, js);
  }

  /** An entry in front of a trace, for an index in front of its indices. */
  lemma TracesCons(tokens: seq<string>, j: nat, cs: seq<Condition>, js: seq<nat>)
    requires Traces(tokens, cs, js)
    requires 1 <= j < |tokens| && Emits(tokens[j]) && (IsCombinator(tokens[j]) || j + 1 < |tokens|)
    ensures Traces(tokens, [Entry(tokens, j)] + cs, [j] + js)
  {
  }

  /** Two indices visited by the same scan: the later one is visited from the
      earlier one. */
  lemma {:induction false} LandsOrdered(tokens: seq<string>, i: nat, j: nat, k: nat)
    requires Lands(tokens, i, j) && Lands(tokens, i, k) && j <= k
    ensures Lands(tokens, j, k)
    decreases j - i
  {
    if i != j {
      LandsOrdered(tokens, Step(tokens, i), j, k);
    }
  }

  /** The value token after an operator is never looked at by itself, so it
      yields no entry even when it reads AND, OR or an operator. */
  lemma ValueSkipped(tokens: seq<string>, i: nat, j: nat)
    requires Lands(tokens, i, j) && j + 1 < |tokens|
    requires !IsCombinator(tokens[j]) && IsOperator(tokens[j])
    ensures !Lands(tokens, i, j + 1)
    ensures j + 1 !in Landings(tokens, i)
  {
    LandingsSound(tokens, i);
    if Lands(tokens, i, j + 1) {
      LandsOrdered(tokens, i, j, j + 1);
      assert false;
    }
  }

  /** The scan throws exactly when it lands on an operator in last position. */
  lemma {:induction false} ScanFailsIff(tokens: seq<string>, i: nat)
    requires 1 <= i
    ensures Scan(tokens, i).Err? <==>
              i < |tokens| && Lands(tokens, i, |tokens| - 1) &&
              !IsCombinator(tokens[|tokens| - 1]) && IsOperator(tokens[|tokens| - 1])
    decreases |tokens| - i
  {
    if i < |tokens| {
      var last := |tokens| - 1;
      if i == last {
        assert Lands(tokens, i, last);
      } else {
        ScanFailsIff(tokens, Step(tokens, i));
        if Lands(tokens, i, last) {
          assert Lands(tokens, Step(tokens, i), last);
        }
      }
    }
  }

  /** The scan never looks before index i - 1, so tokens in front of that
      change neither its entries nor whether it throws (only the index the
      fault reports moves with them). */
  lemma ScanShift(prefix: seq<string>, tokens: seq<string>, i: nat)
    requires 1 <= i
    ensures Scan(prefix + tokens, |prefix| + i).Ok? <==> Scan(tokens, i).Ok?
    ensures Scan(tokens, i).Ok? ==> Scan(prefix + tokens, |prefix| + i) == Scan(tokens, i)
    decreases |tokens| - i, 1
  {
    if i < |tokens| {
      ShiftedToken(prefix, tokens, i);
      if IsCombinator(tokens[i]) || !IsOperator(tokens[i]) {
        ScanShiftOne(prefix, tokens, i);
      } else {
        ScanShiftOperator(prefix, tokens, i);
      }
    } else {
      assert |prefix| + i >= |prefix + tokens|;
    }
  }

  /** ScanShift where the scan moves on by one index. */
  lemma ScanShiftOne(prefix: seq<string>, tokens: seq<string>, i: nat)
    requires 1 <= i < |tokens| && (IsCombinator(tokens[i]) || !IsOperator(tokens[i]))
    requires (prefix + tokens)[|prefix| + i] == tokens[i]
    ensures Scan(prefix + tokens, |prefix| + i).Ok? <==> Scan(tokens, i).Ok?
    ensures Scan(tokens, i).Ok? ==> Scan(prefix + tokens, |prefix| + i) == Scan(tokens, i)
    decreases |tokens| - i, 0
  {
    ScanShift(prefix, tokens, i + 1);
  }

  /** ScanShift where the scan lands on an operator. */
  lemma ScanShiftOperator(prefix: seq<string>, tokens: seq<string>, i: nat)
    requires 1 <= i < |tokens| && !IsCombinator(tokens[i]) && IsOperator(tokens[i])
    requires (prefix + tokens)[|prefix| + i] == tokens[i]
    requires (prefix + tokens)[|prefix| + i - 1] == tokens[i - 1]
    ensures Scan(prefix + tokens, |prefix| + i).Ok? <==> Scan(tokens, i).Ok?
    ensures Scan(tokens, i).Ok? ==> Scan(prefix + tokens, |prefix| + i) == Scan(tokens, i)
    decreases |tokens| - i, 0
  {
    if i + 1 < |tokens| {
      ShiftedToken(prefix, tokens, i + 1);
      ScanShift(prefix, tokens, i + 2);
    }
  }

  /** Indexing past a prefix reads the same tokens. */
  lemma ShiftedToken(prefix: seq<string>, tokens: seq<string>, i: nat)
    requires 1 <= i < |tokens|
    ensures (prefix + tokens)[|prefix| + i] == tokens[i]
    ensures (prefix + tokens)[|prefix| + i - 1] == tokens[i - 1]
  {
  }
}
