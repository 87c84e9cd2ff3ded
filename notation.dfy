/** The compact feature notation a segment is built from, such as
    "+voice-nasal": each symbol '+', '0' or '-' followed by a run of word
    characters specifies that the feature named by the run has the symbol's
    value.  A '0' is itself a word character, so in "-nasal0round" it
    continues the name "nasal0round" rather than starting a third match.  The scanner here stands for the regular-expression scan
    of segment.py line 29, '(+|0|-)(\w+)', with the leading '+' escaped as
    the docstring's prose means it (the docstring itself repeats the
    unescaped '+'): the pattern (\+|0|-)(\w+), applied left to right
    without overlaps, its two groups giving the symbol and the name. */
module Notation {
  import opened Errors
  import opened Tables

  /** A word character: an ASCII letter or digit, or '_'. */
  predicate IsWordChar(c: char) {
    'a' <= c <= 'z' || 'A' <= c <= 'Z' || '0' <= c <= '9' || c == '_'
  }

  /** A non-empty run of word characters, as a name in the notation is. */
  predicate IsWordName(s: string) {
    |s| > 0 && forall i :: 0 <= i < |s| ==> IsWordChar(s[i])
  }

  /** One match of the scan: the symbol and the name it specifies. */
  datatype Token = Token(symbol: char, name: string)

  predicate WellFormed(t: Token) {
    IsSymbol(t.symbol) && IsWordName(t.name)
  }

  /** The length of the longest prefix of `s` made of word characters. */
  function WordRun(s: string): (n: nat)
    ensures n <= |s|
    ensures forall i :: 0 <= i < n ==> IsWordChar(s[i])
    ensures n < |s| ==> !IsWordChar(s[n])
  {
    if |s| == 0 || !IsWordChar(s[0]) then 0 else 1 + WordRun(s[1..])
  }

  /** The matches of a left-to-right scan of `s`: where a symbol is followed
      by at least one word character, the match takes the whole run and the
      scan resumes after it; anywhere else the scan moves on by one. */
  function Scan(s: string): (toks: seq<Token>)
    ensures forall i :: 0 <= i < |toks| ==> WellFormed(toks[i])
    decreases |s|
  {
    if |s| == 0 then []
    else
      var run := WordRun(s[1..]);
      if IsSymbol(s[0]) && run > 0 then
        [Token(s[0], s[1..1 + run])] + Scan(s[1 + run..])
      else
        Scan(s[1..])
  }

  /** The text of a match: its symbol followed by its name. */
  function Spell(t: Token): string {
    [t.symbol] + t.name
  }

  /** The scan skips a character that cannot start a match. */
  lemma ScanSkips(c: char, s: string)
    requires !IsSymbol(c) || s == [] || !IsWordChar(s[0])
    ensures Scan([c] + s) == Scan(s)
  {
    assert ([c] + s)[1..] == s;
  }

  /** The run of word characters ends where a word-character name does. */
  lemma {:induction false} WordRunStops(name: string, rest: string)
    requires forall i :: 0 <= i < |name| ==> IsWordChar(name[i])
    requires rest == [] || !IsWordChar(rest[0])
    ensures WordRun(name + rest) == |name|
    decreases |name|
  {
    if |name| == 0 {
      assert name + rest == rest;
    } else {
      assert (name + rest)[1..] == name[1..] + rest;
      WordRunStops(name[1..], rest);
    }
  }

  /** A well-formed token followed by a non-word character (or by nothing)
      is matched whole, and the scan resumes right after it. */
  lemma ScanToken(t: Token, rest: string)
    requires WellFormed(t)
    requires rest == [] || !IsWordChar(rest[0])
    ensures Scan(Spell(t) + rest) == [t] + Scan(rest)
  {
    SpellSlices(t, rest);
    WordRunStops(t.name, rest);
    MatchAt(Spell(t) + rest, |t.name|);
  }

  /** Where the symbol, the name and the rest sit in a spelled token. */
  lemma SpellSlices(t: Token, rest: string)
    ensures (Spell(t) + rest)[0] == t.symbol
    ensures (Spell(t) + rest)[1..] == t.name + rest
    ensures (Spell(t) + rest)[1..1 + |t.name|] == t.name
    ensures (Spell(t) + rest)[1 + |t.name|..] == rest
  {
  }

  /** One step of the scan at a position where a match starts. */
  lemma MatchAt(s: string, n: nat)
    requires |s| > 0 && IsSymbol(s[0])
    requires n > 0 && WordRun(s[1..]) == n
    ensures Scan(s) == [Token(s[0], s[1..1 + n])] + Scan(s[1 + n..])
  {
  }

  /** '0' is itself a word character, so a '0' straight after a name
      continues that name instead of starting a match of its own:
      "-nasal0round" is one match, for the name "nasal0round". */
  lemma ZeroContinuesName(symbol: char, name: string, more: string)
    requires IsSymbol(symbol) && IsWordName(name)
    requires forall i :: 0 <= i < |more| ==> IsWordChar(more[i])
    ensures Scan([symbol] + name + ['0'] + more) == [Token(symbol, name + ['0'] + more)]
  {
    var t := Token(symbol, name + ['0'] + more);
    assert WellFormed(t);
    ScanToken(t, []);
    assert Spell(t) + [] == [symbol] + name + ['0'] + more;
  }

  /** `sep.join(parts)`. */
  function Join(sep: string, parts: seq<string>): string {
    if |parts| == 0 then ""
    else if |parts| == 1 then parts[0]
    else parts[0] + sep + Join(sep, parts[1..])
  }

  /** The spelling of each token, in order. */
  function Spellings(toks: seq<Token>): (r: seq<string>)
    ensures |r| == |toks|
    ensures forall i :: 0 <= i < |toks| ==> r[i] == Spell(toks[i])
  {
    if |toks| == 0 then [] else [Spell(toks[0])] + Spellings(toks[1..])
  }

  /** The bracketed, comma-separated listing of tokens that a segment's
      representation is: "[+voice, -nasal, 0round]". */
  function Render(toks: seq<Token>): string {
    "[" + Join(", ", Spellings(toks)) + "]"
  }

  lemma {:induction false} ScanJoined(toks: seq<Token>)
    requires forall i :: 0 <= i < |toks| ==> WellFormed(toks[i])
    ensures Scan(Join(", ", Spellings(toks)) + [']']) == toks
    decreases |toks|
  {
    if |toks| == 0 {
      assert Join(", ", Spellings(toks)) + [']'] == [']'] + [];
      ScanSkips(']', []);
    } else if |toks| == 1 {
      JoinOne(toks);
      ScanToken(toks[0], [']']);
      ScanSkips(']', []);
    } else {
      var tail := Join(", ", Spellings(toks[1..])) + [']'];
      JoinMore(toks);
      ScanToken(toks[0], [','] + ([' '] + tail));
      ScanSkips(',', [' '] + tail);
      ScanSkips(' ', tail);
      ScanJoined(toks[1..]);
      assert [toks[0]] + toks[1..] == toks;
    }
  }

  lemma JoinOne(toks: seq<Token>)
    requires |toks| == 1
    ensures Join(", ", Spellings(toks)) + [']'] == Spell(toks[0]) + [']']
  {
  }

  /** A listing of two or more tokens splits into the first spelling, the
      separator and the listing of the rest. */
  lemma JoinMore(toks: seq<Token>)
    requires |toks| >= 2
    ensures Join(", ", Spellings(toks)) + [']']
        == Spell(toks[0]) + ([','] + ([' '] + (Join(", ", Spellings(toks[1..])) + [']'])))
  {
    var parts := Spellings(toks);
    assert parts[1..] == Spellings(toks[1..]);
    SeparatorShape(Spell(toks[0]), Join(", ", parts[1..]));
  }

  lemma SeparatorShape(a: string, b: string)
    ensures a + ", " + b + [']'] == a + ([','] + ([' '] + (b + [']'])))
  {
  }

  /** Scanning a rendered listing gives back exactly its tokens. */
  lemma ScanRender(toks: seq<Token>)
    ensures (forall i :: 0 <= i < |toks| ==> WellFormed(toks[i])) ==> Scan(Render(toks)) == toks
  {
    if forall i :: 0 <= i < |toks| ==> WellFormed(toks[i]) {
      ScanJoined(toks);
      assert Render(toks) == ['['] + (Join(", ", Spellings(toks)) + [']']);
      ScanSkips('[', Join(", ", Spellings(toks)) + [']']);
    }
  }

  /** All tokens carry a symbol that s2n can decode. */
  predicate Decodable(toks: seq<Token>) {
    forall i :: 0 <= i < |toks| ==> IsSymbol(toks[i].symbol)
  }

  /** The names the tokens specify. */
  function Names(toks: seq<Token>): set<string> {
    set i | 0 <= i < |toks| :: toks[i].name
  }

  /** `m` after storing each token's decoded value under its name, first
      token first, overwriting what was there. */
  function Apply(m: map<string, int>, toks: seq<Token>): (r: map<string, int>)
    requires Decodable(toks)
    ensures r.Keys == m.Keys + Names(toks)
    decreases |toks|
  {
    if |toks| == 0 then m
    else
      var last := toks[|toks| - 1];
      assert Names(toks) == Names(toks[..|toks| - 1]) + {last.name};
      Apply(m, toks[..|toks| - 1])[last.name := S2N[last.symbol]]
  }

  /** A key that no token names keeps its value. */
  lemma {:induction false} ApplyUntouched(m: map<string, int>, toks: seq<Token>, k: string)
    requires Decodable(toks)
    requires k in m
    requires forall i :: 0 <= i < |toks| ==> toks[i].name != k
    ensures k in Apply(m, toks) && Apply(m, toks)[k] == m[k]
    decreases |toks|
  {
    if |toks| > 0 {
      ApplyUntouched(m, toks[..|toks| - 1], k);
    }
  }

  /** The last token that names a key decides its value. */
  lemma {:induction false} ApplyLastWins(m: map<string, int>, toks: seq<Token>, i: nat)
    requires Decodable(toks)
    requires i < |toks|
    requires forall j :: i < j < |toks| ==> toks[j].name != toks[i].name
    ensures toks[i].name in Apply(m, toks)
    ensures Apply(m, toks)[toks[i].name] == S2N[toks[i].symbol]
    decreases |toks|
  {
    if i < |toks| - 1 {
      ApplyLastWins(m, toks[..|toks| - 1], i);
    }
  }

  /** A key that some token names, where every token naming it decodes to
      the same value, ends with that value. */
  lemma {:induction false} ApplyAgreeing(m: map<string, int>, toks: seq<Token>, k: string, v: int)
    requires Decodable(toks)
    requires exists i :: 0 <= i < |toks| && toks[i].name == k
    requires forall i :: 0 <= i < |toks| && toks[i].name == k ==> S2N[toks[i].symbol] == v
    ensures k in Apply(m, toks) && Apply(m, toks)[k] == v
    decreases |toks|
  {
    var last := toks[|toks| - 1];
    if last.name != k {
      var init := toks[..|toks| - 1];
      var i :| 0 <= i < |toks| && toks[i].name == k;
      assert init[i] == toks[i];
      ApplyAgreeing(m, init, k, v);
    }
  }

  /** The pattern exactly as written, '(+|0|-)(\w+)', opens its group with a
      repetition operator that has nothing to repeat, so the scan fails to
      compile whatever string it is given. */
  function FinditerAsWritten(ftstr: string): Result<seq<Token>> {
    Err(PatternError)
  }

  /** The pattern as written refuses every notation, even a single
      well-formed specification that the intended pattern scans to itself. */
  lemma PatternAsWrittenFails(t: Token)
    requires WellFormed(t)
    ensures FinditerAsWritten(Spell(t)) == Err(PatternError)
    ensures Scan(Spell(t)) == [t]
  {
    ScanToken(t, []);
    assert Spell(t) + [] == Spell(t);
  }
}
