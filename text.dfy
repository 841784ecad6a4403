/** The string operations of Python 2 that the dispatcher relies on:
    `str.split()`, `str.lower()`, `str.startswith` and `user.split('!')`. */
module Text {
  import opened Wrappers

  /** Whitespace as `str.split()` without arguments sees it in Python 2:
      space, tab, line feed, vertical tab, form feed and carriage return. */
  predicate IsSpace(c: char) {
    c == ' ' || ('\t' <= c <= '\r')
  }

  predicate Spaceless(w: string) {
    forall i :: 0 <= i < |w| ==> !IsSpace(w[i])
  }

  /** A token of `str.split()`: non-empty and free of whitespace. */
  predicate IsWord(w: string) {
    w != [] && Spaceless(w)
  }

  predicate Words(ws: seq<string>) {
    forall k :: 0 <= k < |ws| ==> IsWord(ws[k])
  }

  /** `s` with its leading whitespace removed. */
  function TrimStart(s: string): (r: string)
    ensures |r| <= |s| && r == s[|s| - |r|..]
    ensures r == [] || !IsSpace(r[0])
  {
    if s != [] && IsSpace(s[0]) then TrimStart(s[1..]) else s
  }

  /** The longest prefix of `s` that holds no whitespace. */
  function Word(s: string): (w: string)
    ensures |w| <= |s| && w == s[..|w|]
    ensures Spaceless(w)
    ensures |w| == |s| || IsSpace(s[|w|])
  {
    if s == [] || IsSpace(s[0]) then [] else [s[0]] + Word(s[1..])
  }

  /** Python 2 `s.split()`: the maximal runs of non-whitespace, in order. */
  function Split(s: string): (r: seq<string>)
    ensures Words(r)
    decreases |s|
  {
    var t := TrimStart(s);
    if t == [] then []
    else
      var w := Word(t);
      assert IsWord(w);
      var rest := Split(t[|w|..]);
      WordsCons(w, rest);
      [w] + rest
  }

  lemma WordsCons(w: string, ws: seq<string>)
    requires IsWord(w) && Words(ws)
    ensures Words([w] + ws)
  {
    forall k | 0 <= k < |[w] + ws| ensures IsWord(([w] + ws)[k]) {
      if k > 0 {
        assert ([w] + ws)[k] == ws[k - 1];
      }
    }
  }

  /** `' '.join(ws)`. */
  function Join(ws: seq<string>): string {
    if ws == [] then ""
    else if |ws| == 1 then ws[0]
    else ws[0] + " " + Join(ws[1..])
  }

  lemma {:induction false} WordOfJoined(w: string, s: string)
    requires Spaceless(w)
    requires s == [] || IsSpace(s[0])
    ensures Word(w + s) == w
  {
    if w == [] {
      assert w + s == s;
    } else {
      assert (w + s)[1..] == w[1..] + s;
      WordOfJoined(w[1..], s);
    }
  }

  /** A word followed by whitespace (or nothing) splits into that word
      followed by the split of what comes after it. */
  lemma SplitWordThen(w: string, s: string)
    requires IsWord(w)
    requires s == [] || IsSpace(s[0])
    ensures Split(w + s) == [w] + Split(s)
  {
    assert (w + s)[0] == w[0];
    assert TrimStart(w + s) == w + s;
    WordOfJoined(w, s);
    assert (w + s)[|w|..] == s;
  }

  /** A leading space is skipped. */
  lemma SplitSpace(s: string)
    ensures Split(" " + s) == Split(s)
  {
    assert (" " + s)[1..] == s;
    assert TrimStart(" " + s) == TrimStart(s);
  }

  /** A single word splits into itself. */
  lemma SplitOneWord(w: string)
    requires IsWord(w)
    ensures Split(w) == [w]
  {
    SplitWordThen(w, []);
    assert w + [] == w;
    assert TrimStart([]) == [];
    assert [w] + [] == [w];
  }

  lemma ConcatAssoc<T>(a: seq<T>, b: seq<T>, c: seq<T>)
    ensures a + b + c == a + (b + c)
  {
  }

  lemma ConsTail<T>(s: seq<T>)
    requires s != []
    ensures [s[0]] + s[1..] == s
  {
  }

  lemma WordsTail(ws: seq<string>)
    requires Words(ws) && ws != []
    ensures IsWord(ws[0]) && Words(ws[1..])
  {
    var tail := ws[1..];
    forall k | 0 <= k < |tail| ensures IsWord(tail[k]) {
      assert tail[k] == ws[k + 1];
    }
  }

  /** One step of the round trip: a word in front of a non-empty list of
      words whose join already splits back. */
  lemma SplitJoinCons(ws: seq<string>)
    requires |ws| >= 2 && IsWord(ws[0])
    requires Split(Join(ws[1..])) == ws[1..]
    ensures Split(Join(ws)) == ws
  {
    var w, rest := ws[0], Join(ws[1..]);
    assert Join(ws) == w + " " + rest;
    ConcatAssoc(w, " ", rest);
    SplitWordThen(w, " " + rest);
    SplitSpace(rest);
    ConsTail(ws);
  }

  /** Splitting words joined with single spaces gives the words back: the
      tokenizer neither merges nor loses a token. */
  lemma {:induction false} SplitJoin(ws: seq<string>)
    requires Words(ws)
    ensures Split(Join(ws)) == ws
  {
    if ws == [] {
      assert TrimStart("") == "";
    } else {
      WordsTail(ws);
      if |ws| == 1 {
        SplitOneWord(ws[0]);
        assert ws == [ws[0]];
      } else {
        SplitJoin(ws[1..]);
        SplitJoinCons(ws);
      }
    }
  }

  /** A run of whitespace (possibly empty). */
  predicate Blank(g: string) {
    forall i :: 0 <= i < |g| ==> IsSpace(g[i])
  }

  /** The words of `ws`, each followed by its gap: `ws[0] + gaps[0] +
      ws[1] + gaps[1] + ...`. */
  function Spaced(ws: seq<string>, gaps: seq<string>): string
    requires |gaps| == |ws|
  {
    if ws == [] then "" else ws[0] + gaps[0] + Spaced(ws[1..], gaps[1..])
  }

  /** Gaps as a line may hold them: whitespace runs, every one but the
      trailing one non-empty. */
  predicate Separators(ws: seq<string>, gaps: seq<string>) {
    && |gaps| == |ws|
    && (forall k :: 0 <= k < |gaps| ==> Blank(gaps[k]))
    && (forall k :: 0 <= k < |gaps| - 1 ==> gaps[k] != [])
  }

  lemma {:induction false} TrimBlank(g: string, s: string)
    requires Blank(g)
    ensures TrimStart(g + s) == TrimStart(s)
    decreases |g|
  {
    if g != [] {
      assert (g + s)[0] == g[0];
      assert (g + s)[1..] == g[1..] + s;
      TrimBlank(g[1..], s);
    } else {
      assert g + s == s;
    }
  }

  /** `str.split()` only looks at a line from its first non-blank character. */
  lemma SplitByTrim(x: string, y: string)
    requires TrimStart(x) == TrimStart(y)
    ensures Split(x) == Split(y)
  {
  }

  /** Leading whitespace does not change what `str.split()` returns. */
  lemma SplitSkipBlank(g: string, s: string)
    requires Blank(g)
    ensures Split(g + s) == Split(s)
  {
    TrimBlank(g, s);
    SplitByTrim(g + s, s);
  }

  lemma SeparatorsTail(ws: seq<string>, gaps: seq<string>)
    requires Separators(ws, gaps) && ws != []
    ensures Blank(gaps[0]) && Separators(ws[1..], gaps[1..])
    ensures |ws| > 1 ==> gaps[0] != []
  {
    var tail := gaps[1..];
    forall k | 0 <= k < |tail| ensures Blank(tail[k]) {
      assert tail[k] == gaps[k + 1];
    }
    forall k | 0 <= k < |tail| - 1 ensures tail[k] != [] {
      assert tail[k] == gaps[k + 1];
    }
  }

  /** One step of the general round trip: a word, a gap, then the rest. */
  lemma SplitSpacedCons(ws: seq<string>, gaps: seq<string>)
    requires ws != [] && IsWord(ws[0]) && Separators(ws, gaps)
    requires Split(Spaced(ws[1..], gaps[1..])) == ws[1..]
    ensures Split(Spaced(ws, gaps)) == ws
  {
    SeparatorsTail(ws, gaps);
    var w, rest := ws[0], Spaced(ws[1..], gaps[1..]);
    ConcatAssoc(w, gaps[0], rest);
    if gaps[0] == [] {
      assert |ws| == 1;
      assert gaps[0] + rest == [];
      assert w + [] == w;
      SplitOneWord(w);
    } else {
      var g := gaps[0] + rest;
      assert g[0] == gaps[0][0];
      SplitWordThen(w, g);
      SplitSkipBlank(gaps[0], rest);
    }
    ConsTail(ws);
  }

  lemma {:induction false} SplitSpacedWords(ws: seq<string>, gaps: seq<string>)
    requires Words(ws) && Separators(ws, gaps)
    ensures Split(Spaced(ws, gaps)) == ws
    decreases |ws|
  {
    if ws == [] {
      assert TrimStart("") == "";
    } else {
      WordsTail(ws);
      SeparatorsTail(ws, gaps);
      SplitSpacedWords(ws[1..], gaps[1..]);
      SplitSpacedCons(ws, gaps);
    }
  }

  /** `str.split()` gives back the words of a line however they are spaced:
      any leading whitespace, any non-empty whitespace run between words and
      any trailing whitespace. */
  lemma SplitSpaced(lead: string, ws: seq<string>, gaps: seq<string>)
    requires Blank(lead) && Words(ws) && Separators(ws, gaps)
    ensures Split(lead + Spaced(ws, gaps)) == ws
  {
    SplitSkipBlank(lead, Spaced(ws, gaps));
    SplitSpacedWords(ws, gaps);
  }

  function LowerChar(c: char): char {
    if 'A' <= c <= 'Z' then (c as int + 32) as char else c
  }

  predicate HasUpper(s: string) {
    exists i :: 0 <= i < |s| && 'A' <= s[i] <= 'Z'
  }

  /** Python 2 `s.lower()` on a byte string: each ASCII capital becomes its
      small letter, every other character stays. */
  function Lower(s: string): (r: string)
    ensures |r| == |s|
    ensures forall i :: 0 <= i < |s| && 'A' <= s[i] <= 'Z' ==> r[i] as int == s[i] as int + 32
    ensures forall i :: 0 <= i < |s| && !('A' <= s[i] <= 'Z') ==> r[i] == s[i]
    ensures !HasUpper(r)
    ensures !HasUpper(s) ==> r == s
  {
    seq(|s|, i requires 0 <= i < |s| => LowerChar(s[i]))
  }

  /** `a` and `b` differ at most in the ASCII case of their letters. */
  predicate CaseVariants(a: string, b: string) {
    && |a| == |b|
    && forall i :: 0 <= i < |a| ==>
         || a[i] == b[i]
         || ('A' <= a[i] <= 'Z' && b[i] as int == a[i] as int + 32)
         || ('A' <= b[i] <= 'Z' && a[i] as int == b[i] as int + 32)
  }

  /** Lower-casing identifies two strings exactly when they differ only in
      ASCII case. */
  lemma LowerEqualIff(a: string, b: string)
    ensures Lower(a) == Lower(b) <==> CaseVariants(a, b)
  {
    if Lower(a) == Lower(b) {
      forall i | 0 <= i < |a|
        ensures || a[i] == b[i]
                || ('A' <= a[i] <= 'Z' && b[i] as int == a[i] as int + 32)
                || ('A' <= b[i] <= 'Z' && a[i] as int == b[i] as int + 32)
      {
        assert Lower(a)[i] == Lower(b)[i];
      }
    }
    if CaseVariants(a, b) {
      forall i | 0 <= i < |a| ensures Lower(a)[i] == Lower(b)[i] {
      }
    }
  }

  predicate StartsWith(s: string, prefix: string) {
    |prefix| <= |s| && s[..|prefix|] == prefix
  }

  /** The position of the first `c` in `s`, if any. */
  function FirstIndex(s: string, c: char): (r: Option<nat>)
    ensures r.None? ==> c !in s
    ensures r.Some? ==> r.value < |s| && s[r.value] == c && c !in s[..r.value]
  {
    if s == [] then None
    else if s[0] == c then Some(0)
    else
      var r := FirstIndex(s[1..], c);
      if r.None? then None
      else
        assert s[..r.value + 1] == [s[0]] + s[1..][..r.value];
        Some(r.value + 1)
  }

  /** `nick, host = user.split('!')`: succeeds only when `user` holds exactly
      one '!'; otherwise the unpacking raises ValueError (None here). */
  function SplitUser(user: string): (r: Option<(string, string)>)
  {
    var i := FirstIndex(user, '!');
    if i.None? then None
    else if '!' in user[i.value + 1..] then None
    else Some((user[..i.value], user[i.value + 1..]))
  }

  /** SplitUser accepts exactly the strings `nick + "!" + host` whose two parts
      hold no '!', and gives those parts back. */
  lemma SplitUserExact(user: string, nick: string, host: string)
    ensures SplitUser(user) == Some((nick, host))
        <==> user == nick + "!" + host && '!' !in nick && '!' !in host
  {
    if user == nick + "!" + host && '!' !in nick && '!' !in host {
      assert user[..|nick|] == nick;
      assert user[|nick|] == '!';
      assert FirstIndex(user, '!') == Some(|nick|);
      assert user[|nick| + 1..] == host;
    }
    if SplitUser(user) == Some((nick, host)) {
      var i := FirstIndex(user, '!').value;
      assert user == user[..i] + [user[i]] + user[i + 1..];
    }
  }
}
