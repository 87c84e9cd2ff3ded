/** A phonological segment: a vector of ternary distinctive features over an
    ordered schema of feature names (panphon/segment.py, class Segment). */
module Segments {
  import opened Errors
  import opened Tables
  import opened Notation
  import opened Metrics

  /** What the constructor's first loop stores: every schema name with its
      value in `features`, or 0 where `features` has none. */
  function Defaults(names: seq<string>, features: map<string, int>): map<string, int> {
    map k | k in names :: if k in features then features[k] else 0
  }

  /** The data a new segment holds: the defaults, then every match of the
      notation applied left to right. */
  function Init(names: seq<string>, features: map<string, int>, ftstr: string): map<string, int> {
    Apply(Defaults(names, features), Scan(ftstr))
  }

  /** Every schema name is a key of a new segment, and so is every name the
      notation specifies, whether the schema has it or not. */
  lemma InitKeys(names: seq<string>, features: map<string, int>, ftstr: string)
    ensures Init(names, features, ftstr).Keys == (set k | k in names) + Names(Scan(ftstr))
  {
  }

  /** A schema name that the notation does not specify takes its value from
      `features`, or 0 if `features` has none. */
  lemma InitDefault(names: seq<string>, features: map<string, int>, ftstr: string, k: string)
    requires k in names
    requires forall i :: 0 <= i < |Scan(ftstr)| ==> Scan(ftstr)[i].name != k
    ensures k in Init(names, features, ftstr)
    ensures Init(names, features, ftstr)[k] == if k in features then features[k] else 0
  {
    ApplyUntouched(Defaults(names, features), Scan(ftstr), k);
  }

  /** A name the notation specifies takes the value of its last match,
      overriding `features` and the default. */
  lemma InitLastMatchWins(names: seq<string>, features: map<string, int>, ftstr: string, i: nat)
    requires i < |Scan(ftstr)|
    requires forall j :: i < j < |Scan(ftstr)| ==> Scan(ftstr)[j].name != Scan(ftstr)[i].name
    ensures Scan(ftstr)[i].name in Init(names, features, ftstr)
    ensures Init(names, features, ftstr)[Scan(ftstr)[i].name] == S2N[Scan(ftstr)[i].symbol]
  {
    ApplyLastWins(Defaults(names, features), Scan(ftstr), i);
  }

  /** A notation holding a single specification, such as "+voice", decides
      that feature whatever `features` says of it. */
  lemma NotationOverridesFeatures(names: seq<string>, features: map<string, int>, t: Token)
    requires WellFormed(t)
    ensures t.name in Init(names, features, Spell(t))
    ensures Init(names, features, Spell(t))[t.name] == S2N[t.symbol]
  {
    ScanToken(t, []);
    assert Spell(t) + [] == Spell(t);
    InitLastMatchWins(names, features, Spell(t), 0);
  }

  /** One more name of the first loop. */
  lemma DefaultsStep(names: seq<string>, features: map<string, int>, i: nat)
    requires i < |names|
    ensures Defaults(names[..i + 1], features)
         == Defaults(names[..i], features)[names[i] := if names[i] in features then features[names[i]] else 0]
  {
    assert names[..i + 1] == names[..i] + [names[i]];
  }

  /** One more match of the second loop. */
  lemma ApplyStep(m: map<string, int>, toks: seq<Token>, j: nat)
    requires Decodable(toks) && j < |toks|
    ensures Apply(m, toks[..j + 1]) == Apply(m, toks[..j])[toks[j].name := S2N[toks[j].symbol]]
  {
    assert toks[..j + 1][..j] == toks[..j];
  }

  class Segment {
    /** The ordered schema of feature names. */
    const names: seq<string>
    /** Feature name to value; holds every schema name, and perhaps more. */
    var data: map<string, int>

    ghost predicate Valid()
      reads this
    {
      forall k :: k in names ==> k in data
    }

    /** Segment(names, features, ftstr): default fill from `features`, then
        the notation's matches in order. */
    constructor (names: seq<string>, features: map<string, int> := map[], ftstr: string := "")
      ensures this.names == names
      ensures data == Init(names, features, ftstr)
      ensures Valid()
    {
      this.names := names;
      data := map[];
      new;
      for i := 0 to |names|
        invariant data == Defaults(names[..i], features)
      {
        DefaultsStep(names, features, i);
        var name := names[i];
        if name in features {
          data := data[name := features[name]];
        } else {
          data := data[name := 0];
        }
      }
      assert names[..|names|] == names;
      var toks := Scan(ftstr);
      for j := 0 to |toks|
        invariant data == Apply(Defaults(names, features), toks[..j])
      {
        ApplyStep(Defaults(names, features), toks, j);
        data := data[toks[j].name := S2N[toks[j].symbol]];
      }
      assert toks[..|toks|] == toks;
      InitKeys(names, features, ftstr);
    }

    /** segment[key]: the stored value, or the missing-key error. */
    function Get(key: string): (r: Result<int>)
      reads this
      ensures Valid() && key in names ==> r.Ok?
      ensures r.Ok? ==> key in data && r.value == data[key]
      ensures r.Err? ==> key !in data && r.error == MissingKey(key)
    {
      if key in data then Ok(data[key]) else Err(MissingKey(key))
    }

    /** segment[key] = value: only schema names may be set. */
    method Set(key: string, value: int) returns (res: Outcome)
      requires Valid()
      modifies this
      ensures Valid()
      ensures key in names ==> res == Pass && data == old(data)[key := value]
      ensures key in names ==> Get(key) == Ok(value)
      ensures key !in names ==> res == Fail(UnknownFeatureName(key)) && data == old(data)
    {
      if key in names {
        data := data[key := value];
        res := Pass;
      } else {
        res := Fail(UnknownFeatureName(key));
      }
    }

    /** segment.update(src): every pair of `src` is stored as it is, with no
        check against the schema. */
    method Update(src: map<string, int>)
      requires Valid()
      modifies this
      ensures Valid()
      ensures data == old(data) + src
      ensures forall k :: k in src ==> k in data && data[k] == src[k]
      ensures forall k :: k in old(data) && k !in src ==> k in data && data[k] == old(data)[k]
      ensures (forall k :: k in src ==> k !in names) ==> Numeric() == old(Numeric())
    {
      data := data + src;
    }

    /** The feature values in schema order. */
    function Numeric(): (r: seq<int>)
      reads this
      requires Valid()
      ensures |r| == |names|
      ensures forall i :: 0 <= i < |names| ==> r[i] == data[names[i]]
    {
      var d := data;
      seq(|names|, i requires 0 <= i < |names| && names[i] in d => d[names[i]])
    }

    /** The (name, value) pairs in schema order. */
    function Items(): (r: seq<(string, int)>)
      reads this
      requires Valid()
      ensures |r| == |names|
      ensures forall i :: 0 <= i < |names| ==> r[i].0 == names[i] && r[i].1 == Numeric()[i]
    {
      var d := data;
      seq(|names|, i requires 0 <= i < |names| && names[i] in d => (names[i], d[names[i]]))
    }

    /** The display symbol of every value in schema order; the first value
        without a symbol raises the lookup error. */
    function String(): (r: Result<seq<char>>)
      reads this
      requires Valid()
      ensures r.Ok? <==> AllTernary(Numeric())
      ensures r.Err? ==> exists i :: 0 <= i < |names| && r.error == NoSymbol(data[names[i]])
      ensures r.Ok? ==> |r.value| == |names| && forall i :: 0 <= i < |names| ==> IsSymbol(r.value[i])
      ensures r.Ok? ==> Decode(r.value) == Numeric()
    {
      var r := Encode(Numeric());
      TablesInverse();
      r
    }

    /** repr(segment): "[+voice, -nasal, 0round]", the symbol and name of
        every schema feature in order. */
    function Repr(): (r: Result<string>)
      reads this
      requires Valid()
      ensures r.Ok? <==> AllTernary(Numeric())
      ensures r.Err? ==> exists i :: 0 <= i < |names| && r.error == NoSymbol(data[names[i]])
      ensures r.Ok? && (forall i :: 0 <= i < |names| ==> IsWordName(names[i])) ==>
        |Scan(r.value)| == |names| &&
        forall i :: 0 <= i < |names| ==> Scan(r.value)[i] == Token(N2S[data[names[i]]], names[i])
    {
      match Encode(Numeric())
      case Err(e) => Err(e)
      case Ok(symbols) =>
        var pairs := seq(|names|, i requires 0 <= i < |names| => Token(symbols[i], names[i]));
        TablesInverse();
        ScanRender(pairs);
        Ok(Render(pairs))
    }

    /** Whether this segment's features are a superset of `other`'s pairs. */
    function Match(other: map<string, int>): (r: bool)
      reads this
      ensures r <==> forall k :: k in other ==> k in data && data[k] == other[k]
    {
      assert other.Items <= data.Items <==> forall k :: k in other ==> k in data && data[k] == other[k] by {
        if forall k :: k in other ==> k in data && data[k] == other[k] {
          forall p | p in other.Items ensures p in data.Items {
            assert p.0 in other && other[p.0] == p.1;
          }
        }
        if other.Items <= data.Items {
          forall k | k in other ensures k in data && data[k] == other[k] {
            assert (k, other[k]) in other.Items;
          }
        }
      }
      other.Items <= data.Items
    }

    /** `match` exactly as written: it iterates `features`, a name the
        method cannot see, so every call raises NameError. */
    function MatchAsWritten(other: map<string, int>): Result<bool> {
      Err(NameError("features"))
    }

    /** The (name, value) pairs this segment shares with `other`. */
    function Intersection(other: Segment): (r: map<string, int>)
      reads this, other
      ensures forall k :: k in r <==> k in data && k in other.data && data[k] == other.data[k]
      ensures forall k :: k in r ==> r[k] == data[k]
    {
      var shared := data.Items * other.data.Items;
      var r := map p | p in shared :: p.0 := p.1;
      assert forall k :: k in r <==> k in data && k in other.data && data[k] == other.data[k] by {
        forall k ensures k in r <==> k in data && k in other.data && data[k] == other.data[k] {
          if k in data && k in other.data && data[k] == other.data[k] {
            assert (k, data[k]) in shared;
          }
        }
      }
      r
    }

    /** The sum of absolute differences of the paired feature values. */
    function Distance(other: Segment): (r: nat)
      reads this, other
      requires Valid() && other.Valid()
      ensures r == 0 <==> AgreeOnZip(Numeric(), other.Numeric())
      ensures HammingDistance(other) <= r
      ensures AllTernary(Numeric()) && AllTernary(other.Numeric()) ==> r <= 2 * HammingDistance(other)
    {
      var xs, ys := Numeric(), other.Numeric();
      L1ZeroIff(xs, ys);
      HammingAtMostL1(xs, ys);
      L1AtMostTwiceHamming(xs, ys);
      L1(xs, ys)
    }

    /** The distance divided by the number of schema features. */
    function NormDistance(other: Segment): (r: Result<real>)
      reads this, other
      requires Valid() && other.Valid()
      ensures r.Err? <==> |names| == 0
      ensures r.Err? ==> r.error == ZeroDivision
      ensures r.Ok? ==> IsRatio(r.value, Distance(other), |names|)
      ensures r.Ok? ==> 0.0 <= r.value
      ensures r.Ok? && |other.names| == |names| && AllTernary(Numeric()) && AllTernary(other.Numeric()) ==>
        r.value <= 2.0
    {
      if |names| == 0 then Err(ZeroDivision) else Ok(Ratio(Distance(other), |names|))
    }

    /** The number of paired positions whose feature values differ. */
    function HammingDistance(other: Segment): (r: nat)
      reads this, other
      requires Valid() && other.Valid()
      ensures r == 0 <==> AgreeOnZip(Numeric(), other.Numeric())
      ensures r <= |names| && r <= |other.names|
    {
      HammingZeroIff(Numeric(), other.Numeric());
      Hamming(Numeric(), other.Numeric())
    }

    /** The Hamming distance divided by the number of schema features. */
    function NormHammingDistance(other: Segment): (r: Result<real>)
      reads this, other
      requires Valid() && other.Valid()
      ensures r.Err? <==> |names| == 0
      ensures r.Err? ==> r.error == ZeroDivision
      ensures r.Ok? ==> IsRatio(r.value, HammingDistance(other), |names|)
      ensures r.Ok? ==> 0.0 <= r.value <= 1.0
    {
      if |names| == 0 then Err(ZeroDivision) else Ok(Ratio(HammingDistance(other), |names|))
    }
  }

  /** Keys outside the schema are invisible to every projection: two
      segments over one schema that agree on it give the same values,
      pairs, symbols and representation. */
  lemma ProjectionsIgnoreExtraKeys(a: Segment, b: Segment)
    requires a.Valid() && b.Valid() && a.names == b.names
    requires forall k :: k in a.names ==> a.data[k] == b.data[k]
    ensures a.Numeric() == b.Numeric() && a.Items() == b.Items()
    ensures a.String() == b.String() && a.Repr() == b.Repr()
  {
    assert a.Numeric() == b.Numeric();
  }

  /** Re-building a segment from its own representation restores its schema
      features, whatever `features` is given, and adds no other key. */
  lemma ReprRebuilds(s: Segment, features: map<string, int>)
    requires s.Valid() && s.Repr().Ok?
    requires forall i :: 0 <= i < |s.names| ==> IsWordName(s.names[i])
    ensures Init(s.names, features, s.Repr().value) == map k | k in s.names :: s.data[k]
  {
    var toks := Scan(s.Repr().value);
    forall i | 0 <= i < |toks|
      ensures toks[i].name == s.names[i]
      ensures IsSymbol(toks[i].symbol) && S2N[toks[i].symbol] == s.data[s.names[i]]
    {
      assert Ternary(s.Numeric()[i]);
      SymbolRoundTrip(s.data[s.names[i]]);
    }
    RebuildFromListing(s.names, s.data, features, toks);
  }

  /** Applying to the defaults one match per schema name, decoding to that
      name's value in `data`, gives `data` on the schema and nothing else. */
  lemma RebuildFromListing(names: seq<string>, data: map<string, int>, features: map<string, int>,
                           toks: seq<Token>)
    requires forall k :: k in names ==> k in data
    requires |toks| == |names|
    requires forall i :: 0 <= i < |toks| ==> toks[i].name == names[i]
    requires forall i :: 0 <= i < |toks| ==> IsSymbol(toks[i].symbol) && S2N[toks[i].symbol] == data[names[i]]
    ensures Decodable(toks)
    ensures Apply(Defaults(names, features), toks) == map k | k in names :: data[k]
  {
    var m := Apply(Defaults(names, features), toks);
    ListingNames(names, toks);
    assert m.Keys == set k | k in names;
    forall k | k in names ensures m[k] == data[k] {
      var i :| 0 <= i < |names| && names[i] == k;
      ApplyAgreeing(Defaults(names, features), toks, k, data[k]);
    }
    SchemaRestriction(m, names, data);
  }

  /** A map whose keys are the schema names and which agrees with `data` on
      them is `data` restricted to the schema. */
  lemma SchemaRestriction(m: map<string, int>, names: seq<string>, data: map<string, int>)
    requires forall k :: k in names ==> k in data
    requires m.Keys == set k | k in names
    requires forall k :: k in names ==> m[k] == data[k]
    ensures m == map k | k in names :: data[k]
  {
  }

  /** One match per schema name specifies exactly the schema's names. */
  lemma ListingNames(names: seq<string>, toks: seq<Token>)
    requires |toks| == |names|
    requires forall i :: 0 <= i < |names| ==> toks[i].name == names[i]
    ensures Names(toks) == set k | k in names
  {
    forall k | k in names ensures k in Names(toks) {
      var i :| 0 <= i < |names| && names[i] == k;
      assert toks[i].name == k;
    }
  }

  lemma IntersectionCommutes(a: Segment, b: Segment)
    ensures a.Intersection(b) == b.Intersection(a)
  {
    var ab, ba := a.Intersection(b), b.Intersection(a);
    assert ab.Keys == ba.Keys;
  }

  /** A segment shares all its pairs with itself. */
  lemma IntersectionWithSelf(a: Segment)
    ensures a.Intersection(a) == a.data
  {
    var aa := a.Intersection(a);
    assert aa.Keys == a.data.Keys;
  }

  /** The shared pairs form the largest map that both segments match. */
  lemma IntersectionIsGreatestCommonPart(a: Segment, b: Segment, m: map<string, int>)
    ensures a.Match(a.Intersection(b)) && b.Match(a.Intersection(b))
    ensures a.Match(m) && b.Match(m) ==>
      forall k :: k in m ==> k in a.Intersection(b) && a.Intersection(b)[k] == m[k]
  {
  }

  /** `match` as written fails even where the superset check is trivially
      true, against no pairs at all. */
  lemma MatchAsWrittenFails(s: Segment)
    ensures s.MatchAsWritten(map[]) == Err(NameError("features"))
    ensures s.Match(map[])
  {
  }

  /** A segment is at distance zero from itself, by every measure. */
  lemma DistanceToSelf(s: Segment)
    requires s.Valid()
    ensures s.Distance(s) == 0 && s.HammingDistance(s) == 0
    ensures |s.names| > 0 ==> s.NormDistance(s) == Ok(0.0) && s.NormHammingDistance(s) == Ok(0.0)
  {
    SelfDistance(s.Numeric());
  }

  lemma DistanceSymmetric(a: Segment, b: Segment)
    requires a.Valid() && b.Valid()
    ensures a.Distance(b) == b.Distance(a)
    ensures a.HammingDistance(b) == b.HammingDistance(a)
  {
    L1Symmetric(a.Numeric(), b.Numeric());
    HammingSymmetric(a.Numeric(), b.Numeric());
  }

  /** Over schemas of one length both distances obey the triangle inequality. */
  lemma DistanceTriangle(a: Segment, b: Segment, c: Segment)
    requires a.Valid() && b.Valid() && c.Valid()
    requires |a.names| == |b.names| == |c.names|
    ensures a.Distance(c) <= a.Distance(b) + b.Distance(c)
    ensures a.HammingDistance(c) <= a.HammingDistance(b) + b.HammingDistance(c)
  {
    L1Triangle(a.Numeric(), b.Numeric(), c.Numeric());
    HammingTriangle(a.Numeric(), b.Numeric(), c.Numeric());
  }

  /** q is d divided by n: multiplied by n it gives d. */
  predicate IsRatio(q: real, d: nat, n: nat) {
    q * (n as real) == d as real
  }

  /** Python's true division d / n of a count by a positive length, as an
      exact real. */
  function Ratio(d: nat, n: nat): (q: real)
    requires n > 0
    ensures IsRatio(q, d, n)
    ensures 0.0 <= q
    ensures d <= n ==> q <= 1.0
    ensures d <= 2 * n ==> q <= 2.0
  {
    var x, y := d as real, n as real;
    QuotientTimes(x, y);
    QuotientBound(x, y, 1.0);
    QuotientBound(x, y, 2.0);
    x / y
  }

  lemma QuotientTimes(x: real, y: real)
    requires y > 0.0
    ensures (x / y) * y == x
  {
  }

  /** Dividing x <= c * y by a positive y; and a non-negative x stays so. */
  lemma QuotientBound(x: real, y: real, c: real)
    requires y > 0.0
    ensures x <= c * y ==> x / y <= c
    ensures 0.0 <= x ==> 0.0 <= x / y
  {
  }
}
