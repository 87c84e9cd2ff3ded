/** The two symbol tables of a segment: `n2s` turns a ternary feature value
    into its display symbol and `s2n` turns a symbol back into its value. */
module Tables {
  import opened Errors

  /** n2s: -1, 0 and +1 are shown as '-', '0' and '+'. */
  const N2S: map<int, char> := map[-1 := '-', 0 := '0', 1 := '+']

  /** s2n: every (value, symbol) pair of n2s swapped (TablesInverse). */
  const S2N: map<char, int> := map['-' := -1, '0' := 0, '+' := 1]

  /** A value that has a display symbol. */
  predicate Ternary(v: int) {
    v in N2S
  }

  /** A character that denotes a value. */
  predicate IsSymbol(c: char) {
    c in S2N
  }

  /** The tables are each other's inverse over {-1, 0, 1} and {'-', '0', '+'}:
      s2n holds exactly the swapped pairs of n2s. */
  lemma TablesInverse()
    ensures N2S.Keys == {-1, 0, 1} && S2N.Keys == {'-', '0', '+'}
    ensures forall v :: v in N2S ==> N2S[v] in S2N && S2N[N2S[v]] == v
    ensures forall c :: c in S2N ==> S2N[c] in N2S && N2S[S2N[c]] == c
  {
  }

  /** The symbol of a ternary value decodes to that value. */
  lemma SymbolRoundTrip(v: int)
    requires v in N2S
    ensures IsSymbol(N2S[v]) && S2N[N2S[v]] == v
  {
  }

  /** Exactly the integers -1, 0 and 1 are ternary. */
  lemma TernaryRange(v: int)
    ensures Ternary(v) <==> -1 <= v <= 1
  {
  }

  /** Maps every value to its symbol, as `string()` does; the first value
      without a symbol raises the lookup error. */
  function Encode(vs: seq<int>): (r: Result<seq<char>>)
    ensures r.Ok? <==> forall i :: 0 <= i < |vs| ==> Ternary(vs[i])
    ensures r.Ok? ==> |r.value| == |vs| && forall i :: 0 <= i < |vs| ==> r.value[i] == N2S[vs[i]]
    ensures r.Err? ==> exists i :: 0 <= i < |vs| && r.error == NoSymbol(vs[i]) && !Ternary(vs[i])
                                   && forall j :: 0 <= j < i ==> Ternary(vs[j])
  {
    if |vs| == 0 then Ok([])
    else if vs[0] !in N2S then Err(NoSymbol(vs[0]))
    else
      match Encode(vs[1..])
      case Ok(cs) => Ok([N2S[vs[0]]] + cs)
      case Err(e) =>
        assert exists i :: 0 <= i < |vs[1..]| && e == NoSymbol(vs[1..][i]) && !Ternary(vs[1..][i])
                           && forall j :: 0 <= j < i ==> Ternary(vs[1..][j]);
        var i :| 0 <= i < |vs[1..]| && e == NoSymbol(vs[1..][i]) && !Ternary(vs[1..][i])
                  && forall j :: 0 <= j < i ==> Ternary(vs[1..][j]);
        assert forall j :: 0 <= j < i + 1 ==> Ternary(vs[j]) by {
          forall j | 0 <= j < i + 1 ensures Ternary(vs[j]) {
            if j > 0 { assert vs[j] == vs[1..][j - 1]; }
          }
        }
        Err(e)
  }

  /** Maps every symbol to its value through s2n. */
  function Decode(cs: seq<char>): (r: seq<int>)
    requires forall i :: 0 <= i < |cs| ==> IsSymbol(cs[i])
  {
    seq(|cs|, i requires 0 <= i < |cs| && IsSymbol(cs[i]) => S2N[cs[i]])
  }

  /** Decoding the symbols of ternary values gives the values back. */
  lemma DecodeEncode(vs: seq<int>)
    requires forall i :: 0 <= i < |vs| ==> Ternary(vs[i])
    ensures Encode(vs).Ok?
    ensures forall i :: 0 <= i < |vs| ==> IsSymbol(Encode(vs).value[i])
    ensures Decode(Encode(vs).value) == vs
  {
    TablesInverse();
  }

  /** Encoding the values of symbols gives the symbols back. */
  lemma EncodeDecode(cs: seq<char>)
    requires forall i :: 0 <= i < |cs| ==> IsSymbol(cs[i])
    ensures Encode(Decode(cs)) == Ok(cs)
  {
    TablesInverse();
    var vs := Decode(cs);
    assert forall i :: 0 <= i < |vs| ==> Ternary(vs[i]);
    assert Encode(vs).value == cs;
  }
}
