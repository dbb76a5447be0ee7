/// The small part of java.lang that the engine leans on: the exception an
/// out-of-range array read raises, and the String operations it calls
/// (toUpperCase, trim, split, replaceAll of one literal character), each
/// restricted to what the engine's inputs need.
module JavaLang {

  /** The fault a Java array read outside its bounds raises
      (ArrayIndexOutOfBoundsException), with the index that was read. */
  datatype Fault = IndexOutOfBounds(index: int)

  /** A computation that either finishes with a value or throws. */
  datatype Result<T> = Ok(value: T) | Err(fault: Fault)

  // ---------------------------------------------------------------------
  // Characters

  /** The characters of the regular-expression class \s: space, tab, line
      feed, vertical tab, form feed and carriage return. */
  const Whitespace: set<char> := {' ', '\t', '\n', '\U{B}', '\U{C}', '\r'}

  /** The characters String.trim removes: every code point up to U+0020. */
  predicate IsTrimmable(c: char) {
    c <= ' '
  }

  predicate IsLowerLetter(c: char) {
    'a' <= c <= 'z'
  }

  predicate IsUpperLetter(c: char) {
    'A' <= c <= 'Z'
  }

  /** toUpperCase on one character, for the ASCII letters. */
  function UpperChar(c: char): (u: char)
    ensures IsLowerLetter(c) ==> IsUpperLetter(u) && u as int == c as int - 32
    ensures !IsLowerLetter(c) ==> u == c
  {
    if IsLowerLetter(c) then (c as int - 32) as char else c
  }

  /** The lower-case partner of an upper-case ASCII letter. */
  function LowerChar(c: char): (l: char)
    requires IsUpperLetter(c)
    ensures IsLowerLetter(l) && UpperChar(l) == c
  {
    (c as int + 32) as char
  }

  /** String.toUpperCase, with ASCII case folding: each lower-case letter
      becomes its upper-case partner, and every other character stays where
      it was. */
  function Upper(s: string): (u: string)
    ensures |u| == |s|
    ensures forall i {:trigger u[i]} :: 0 <= i < |s| ==>
              if IsLowerLetter(s[i]) then u[i] as int == s[i] as int - 32 else u[i] == s[i]
  {
    seq(|s|, i requires 0 <= i < |s| => UpperChar(s[i]))
  }

  /** A keyword: a non-empty word of upper-case ASCII letters. */
  predicate IsKeyword(k: string) {
    |k| > 0 && forall i :: 0 <= i < |k| ==> IsUpperLetter(k[i])
  }

  /** w spells the keyword k, each letter in either case. */
  predicate SpelledAs(w: string, k: string)
    requires IsKeyword(k)
  {
    |w| == |k| && forall i :: 0 <= i < |w| ==> w[i] == k[i] || w[i] == LowerChar(k[i])
  }

  /** Comparing the upper-cased word with a keyword accepts exactly the
      spellings of that keyword in any mix of cases. */
  lemma UpperMatchesKeyword(w: string, k: string)
    requires IsKeyword(k)
    ensures Upper(w) == k <==> SpelledAs(w, k)
  {
    if Upper(w) == k {
      forall i | 0 <= i < |w|
        ensures w[i] == k[i] || w[i] == LowerChar(k[i])
      {
        assert UpperChar(w[i]) == k[i];
      }
    }
    if SpelledAs(w, k) {
      forall i | 0 <= i < |w|
        ensures Upper(w)[i] == k[i]
      {
        assert w[i] == k[i] || w[i] == LowerChar(k[i]);
      }
    }
  }

  // ---------------------------------------------------------------------
  // String.trim

  /** All characters of s are trimmable. */
  predicate AllTrimmable(s: string) {
    forall i :: 0 <= i < |s| ==> IsTrimmable(s[i])
  }

  /** Drops the trimmable characters at the front: the result is the longest
      suffix of s that does not start with one. */
  function TrimStart(s: string): (r: string)
    ensures |r| <= |s| && r == s[|s| - |r|..]
    ensures AllTrimmable(s[..|s| - |r|])
    ensures r == [] || !IsTrimmable(r[0])
  {
    if s != [] && IsTrimmable(s[0]) then
      var r := TrimStart(s[1..]);
      assert s[..|s| - |r|] == [s[0]] + s[1..][..|s| - 1 - |r|];
      r
    else
      s
  }

  /** Drops the trimmable characters at the end: the result is the longest
      prefix of s that does not end with one. */
  function TrimEnd(s: string): (r: string)
    ensures |r| <= |s| && r == s[..|r|]
    ensures AllTrimmable(s[|r|..])
    ensures r == [] || !IsTrimmable(r[|r| - 1])
  {
    if s != [] && IsTrimmable(s[|s| - 1]) then
      var r := TrimEnd(s[..|s| - 1]);
      assert s[|r|..] == s[..|s| - 1][|r|..] + [s[|s| - 1]];
      r
    else
      s
  }

  /** String.trim: the infix of s left after dropping trimmable characters at
      both ends; it neither starts nor ends with one. */
  function Trim(s: string): (r: string)
    ensures |r| <= |s|
    ensures exists p :: 0 <= p && p + |r| <= |s| && r == s[p..p + |r|] &&
                        AllTrimmable(s[..p]) && AllTrimmable(s[p + |r|..])
    ensures r == [] || (!IsTrimmable(r[0]) && !IsTrimmable(r[|r| - 1]))
  {
    var e := TrimEnd(s);
    var r := TrimStart(e);
    TrimCut(s, e, r);
    r
  }

  /** A prefix e of s with a trimmable rest, and a suffix r of e with a
      trimmable front, cut s into trimmable text, r and trimmable text. */
  lemma TrimCut(s: string, e: string, r: string)
    requires |e| <= |s| && e == s[..|e|] && AllTrimmable(s[|e|..])
    requires |r| <= |e| && r == e[|e| - |r|..] && AllTrimmable(e[..|e| - |r|])
    ensures var p := |e| - |r|;
            0 <= p && p + |r| <= |s| && r == s[p..p + |r|] &&
            AllTrimmable(s[..p]) && AllTrimmable(s[p + |r|..])
  {
    var n, p := |e|, |e| - |r|;
    assert e[..p] == s[..p];
    assert e[p..] == s[p..n];
  }

  /** Trimming a string that neither starts nor ends with a trimmable
      character, framed by trimmable characters, gives back that string. */
  lemma TrimFrame(lead: string, body: string, trail: string)
    requires AllTrimmable(lead) && AllTrimmable(trail)
    requires body != [] && !IsTrimmable(body[0]) && !IsTrimmable(body[|body| - 1])
    ensures Trim(lead + body + trail) == body
  {
    TrimEndDrops(lead + body, trail);
    assert lead + body + trail == (lead + body) + trail;
    TrimStartDrops(lead, body);
  }

  /** TrimEnd drops exactly a trimmable tail after a non-trimmable end. */
  lemma {:induction false} TrimEndDrops(x: string, trail: string)
    requires x != [] && !IsTrimmable(x[|x| - 1]) && AllTrimmable(trail)
    ensures TrimEnd(x + trail) == x
    decreases |trail|
  {
    if trail == [] {
      assert x + trail == x;
    } else {
      var shorter := trail[..|trail| - 1];
      assert (x + trail)[..|x + trail| - 1] == x + shorter;
      TrimEndDrops(x, shorter);
    }
  }

  /** TrimStart drops exactly a trimmable head before a non-trimmable start. */
  lemma {:induction false} TrimStartDrops(lead: string, y: string)
    requires y != [] && !IsTrimmable(y[0]) && AllTrimmable(lead)
    ensures TrimStart(lead + y) == y
  {
    if lead == [] {
      assert lead + y == y;
    } else {
      assert (lead + y)[1..] == lead[1..] + y;
      TrimStartDrops(lead[1..], y);
    }
  }

  /** Trailing blanks do not change the trimmed string. */
  lemma TrimTrailingSpace(s: string)
    ensures Trim(s + " ") == Trim(s)
  {
    assert (s + " ")[..|s|] == s;
  }

  // ---------------------------------------------------------------------
  // Splitting and joining

  /** No character of s belongs to seps. */
  predicate Avoids(s: string, seps: set<char>) {
    forall i :: 0 <= i < |s| ==> s[i] !in seps
  }

  /** Every character of s belongs to seps. */
  predicate AllIn(s: string, seps: set<char>) {
    forall i :: 0 <= i < |s| ==> s[i] in seps
  }

  /** Cuts s at every character of seps. Adjacent separators give empty
      fields; trailing empty fields are kept. */
  function Split(s: string, seps: set<char>): (fields: seq<string>)
    ensures |fields| >= 1
    ensures forall k :: 0 <= k < |fields| ==> Avoids(fields[k], seps)
    ensures |fields| <= |s| + 1
  {
    if s == [] then [[]]
    else
      var rest := Split(s[1..], seps);
      if s[0] in seps then [[]] + rest
      else [[s[0]] + rest[0]] + rest[1..]
  }

  /** The parts in order with sep between neighbours. */
  function JoinWith(parts: seq<string>, sep: string): string
  {
    if |parts| == 0 then []
    else if |parts| == 1 then parts[0]
    else parts[0] + sep + JoinWith(parts[1..], sep)
  }

  /** Joining the fields of a split on one character with that character
      gives back the string. */
  lemma {:induction false} JoinSplit(s: string, c: char)
    ensures JoinWith(Split(s, {c}), [c]) == s
  {
    if s != [] {
      var rest := Split(s[1..], {c});
      JoinSplit(s[1..], c);
      if s[0] == c {
        assert Split(s, {c}) == [[]] + rest;
      } else if |rest| == 1 {
        assert Split(s, {c}) == [[s[0]] + rest[0]];
      } else {
        assert Split(s, {c})[1..] == rest[1..];
        assert JoinWith(rest, [c]) == rest[0] + [c] + JoinWith(rest[1..], [c]);
      }
    }
  }

  /** A separator-free prefix is glued to the first field. */
  lemma {:induction false} SplitPrefix(a: string, s: string, seps: set<char>)
    requires Avoids(a, seps)
    ensures Split(a + s, seps) == [a + Split(s, seps)[0]] + Split(s, seps)[1..]
  {
    if a != [] {
      assert (a + s)[1..] == a[1..] + s;
      SplitPrefix(a[1..], s, seps);
      assert [a[0]] + (a[1..] + Split(s, seps)[0]) == a + Split(s, seps)[0];
    } else {
      var fields := Split(s, seps);
      assert a + s == s && a + fields[0] == fields[0];
      assert fields == [fields[0]] + fields[1..];
    }
  }

  /** A non-empty, separator-free piece followed by the end or by a separator
      is a field of its own. */
  lemma NonEmptySplitPrefix(t: string, s: string, seps: set<char>)
    requires t != [] && Avoids(t, seps)
    requires s == [] || s[0] in seps
    ensures NonEmpty(Split(t + s, seps)) == [t] + NonEmpty(Split(s, seps))
  {
    SplitPrefix(t, s, seps);
    assert t + [] == t;
    if s != [] {
      var rest := Split(s[1..], seps);
      assert Split(s, seps) == [[]] + rest;
      assert ([t] + rest)[1..] == rest && ([[]] + rest)[1..] == rest;
    }
  }

  /** A run of separators in front only adds empty fields. */
  lemma {:induction false} NonEmptySplitSeparators(g: string, s: string, seps: set<char>)
    requires AllIn(g, seps)
    ensures NonEmpty(Split(g + s, seps)) == NonEmpty(Split(s, seps))
  {
    if g != [] {
      assert (g + s)[1..] == g[1..] + s;
      NonEmptySplitSeparators(g[1..], s, seps);
      var rest := Split(g[1..] + s, seps);
      assert ([[]] + rest)[1..] == rest;
    } else {
      assert g + s == s;
    }
  }

  /** Splitting the parts joined with a separator character gives back the
      parts, provided none of them contains a separator. */
  lemma {:induction false} SplitJoin(parts: seq<string>, c: char, seps: set<char>)
    requires |parts| >= 1 && c in seps
    requires forall k :: 0 <= k < |parts| ==> Avoids(parts[k], seps)
    ensures Split(JoinWith(parts, [c]), seps) == parts
  {
    if |parts| == 1 {
      SplitPrefix(parts[0], [], seps);
      assert parts[0] + [] == parts[0];
    } else {
      var tail := JoinWith(parts[1..], [c]);
      SplitJoin(parts[1..], c, seps);
      assert Split([c] + tail, seps) == [[]] + parts[1..];
      SplitPrefix(parts[0], [c] + tail, seps);
      assert parts[0] + [c] + tail == parts[0] + ([c] + tail);
      assert parts[0] + [] == parts[0];
    }
  }

  /** The non-empty strings of parts, in order: every non-empty part is kept
      as often as it occurs, and the empty ones are gone. */
  function NonEmpty(parts: seq<string>): (r: seq<string>)
    ensures multiset(r) == multiset(parts)[[] := 0]
    ensures |r| == |parts| - multiset(parts)[[]]
    ensures forall x :: x in r ==> x != [] && x in parts
  {
    if parts == [] then []
    else
      assert parts == [parts[0]] + parts[1..];
      if parts[0] == [] then NonEmpty(parts[1..])
      else [parts[0]] + NonEmpty(parts[1..])
  }

  /** Dropping the empty parts works part by part, so the order of what is
      kept is the order of parts. */
  lemma {:induction false} NonEmptyAppend(a: seq<string>, b: seq<string>)
    ensures NonEmpty(a + b) == NonEmpty(a) + NonEmpty(b)
  {
    if a != [] {
      var ab := a + b;
      assert ab[0] == a[0] && ab[1..] == a[1..] + b;
      NonEmptyAppend(a[1..], b);
      if a[0] != [] {
        assert NonEmpty(ab) == [a[0]] + NonEmpty(a[1..] + b);
        assert NonEmpty(a) == [a[0]] + NonEmpty(a[1..]);
      }
    } else {
      assert a + b == b;
    }
  }

  // ---------------------------------------------------------------------
  // replaceAll of a single literal character

  /** s with every occurrence of c removed: each other character is kept as
      often as it occurs. */
  function RemoveChar(s: string, c: char): (r: string)
    ensures multiset(r) == multiset(s)[c := 0]
    ensures |r| == |s| - multiset(s)[c]
    ensures forall x :: x in r <==> x in s && x != c
  {
    if s == [] then []
    else
      assert s == [s[0]] + s[1..];
      if s[0] == c then RemoveChar(s[1..], c)
      else [s[0]] + RemoveChar(s[1..], c)
  }

  /** Removal works piece by piece, so the kept characters stay in order. */
  lemma {:induction false} RemoveCharAppend(a: string, b: string, c: char)
    ensures RemoveChar(a + b, c) == RemoveChar(a, c) + RemoveChar(b, c)
  {
    if a != [] {
      assert (a + b)[1..] == a[1..] + b;
      RemoveCharAppend(a[1..], b, c);
    } else {
      assert a + b == b;
    }
  }
}
