/** The counting part of `get_attribute_balancer_weights`: the sorted distinct attribute
    names, how often each occurs, the inverse-frequency weight of every sample, the
    assertion that every multiplier key is a known name, and the per-sample multipliers.
    The L2 normalisation and the product of weights and multipliers are floating point
    and are not part of this model. */
module AttributeBalancer {
  import opened Wrappers

  /** Code-point lexicographic order on strings, the order `np.unique` sorts names in. */
  predicate StrLess(a: string, b: string) {
    if a == [] then b != []
    else if b == [] then false
    else a[0] < b[0] || (a[0] == b[0] && StrLess(a[1..], b[1..]))
  }

  lemma {:induction false} StrLessIrreflexive(a: string)
    ensures !StrLess(a, a)
  {
    if a != [] {
      StrLessIrreflexive(a[1..]);
    }
  }

  lemma {:induction false} StrLessTransitive(a: string, b: string, c: string)
    requires StrLess(a, b) && StrLess(b, c)
    ensures StrLess(a, c)
  {
    if a != [] && b != [] && c != [] && a[0] == b[0] && b[0] == c[0] {
      StrLessTransitive(a[1..], b[1..], c[1..]);
    }
  }

  lemma {:induction false} StrLessTotal(a: string, b: string)
    ensures a == b || StrLess(a, b) || StrLess(b, a)
  {
    if a != [] && b != [] && a[0] == b[0] {
      StrLessTotal(a[1..], b[1..]);
      if a[1..] == b[1..] {
        assert a == [a[0]] + a[1..] && b == [b[0]] + b[1..];
      }
    }
  }

  predicate StrictlySorted(u: seq<string>) {
    forall i, j :: 0 <= i < j < |u| ==> StrLess(u[i], u[j])
  }

  function InsertUnique(x: string, u: seq<string>): (r: seq<string>)
    requires StrictlySorted(u)
    ensures StrictlySorted(r)
    ensures forall s :: s in r <==> s in u || s == x
    ensures r != [] && (r[0] == x || (u != [] && r[0] == u[0]))
  {
    if u == [] then [x]
    else if x == u[0] then u
    else if StrLess(x, u[0]) then
      assert forall j :: 0 <= j < |u| ==> StrLess(x, u[j]) by {
        forall j | 0 <= j < |u| ensures StrLess(x, u[j]) {
          if j > 0 { StrLessTransitive(x, u[0], u[j]); }
        }
      }
      [x] + u
    else
      StrLessTotal(x, u[0]);
      var rest := InsertUnique(x, u[1..]);
      assert StrLess(u[0], rest[0]);
      assert forall j :: 0 <= j < |rest| ==> StrLess(u[0], rest[j]) by {
        forall j | 0 <= j < |rest| ensures StrLess(u[0], rest[j]) {
          if j > 0 { StrLessTransitive(u[0], rest[0], rest[j]); }
        }
      }
      assert u == [u[0]] + u[1..];
      [u[0]] + rest
  }

  /** `np.unique(names)`: the distinct names in increasing order. */
  function Unique(names: seq<string>): (u: seq<string>)
    ensures StrictlySorted(u)
    ensures forall s :: s in u <==> s in names
  {
    if names == [] then []
    else
      assert names == [names[0]] + names[1..];
      InsertUnique(names[0], Unique(names[1..]))
  }

  /** `len(np.where(names == u)[0])`. */
  function Count(names: seq<string>, u: string): (n: nat)
    ensures n <= |names|
    ensures u in names ==> n >= 1
  {
    if names == [] then 0
    else (if names[0] == u then 1 else 0) + Count(names[1..], u)
  }

  /** `unique.index(x)`. */
  function IndexOf(u: seq<string>, x: string): (k: nat)
    requires x in u
    ensures k < |u| && u[k] == x
    ensures forall j :: 0 <= j < k ==> u[j] != x
  {
    if u[0] == x then 0 else 1 + IndexOf(u[1..], x)
  }

  /** `1.0 / n` for a count `n`. */
  function Inverse(n: nat): (r: real)
    requires n >= 1
    ensures 0.0 < r <= 1.0 && r * (n as real) == 1.0
  {
    1.0 / (n as real)
  }

  /** `w + w + ... + w`, `n` times. */
  function Repeat(n: nat, w: real): real {
    if n == 0 then 0.0 else Repeat(n - 1, w) + w
  }

  lemma {:induction false} RepeatIsProduct(n: nat, w: real)
    ensures Repeat(n, w) == (n as real) * w
  {
    if n > 0 {
      RepeatIsProduct(n - 1, w);
    }
  }

  lemma RepeatInverse(n: nat)
    requires n >= 1
    ensures Repeat(n, Inverse(n)) == 1.0
  {
    RepeatIsProduct(n, Inverse(n));
  }

  datatype Counts = Counts(unique: seq<string>, counts: seq<nat>, weights: seq<real>)

  /** The distinct names, their counts `attr_count`, and each sample's weight
      `(1.0 / attr_count)[attr_idx[i]]` before normalisation. */
  function CountAttributes(names: seq<string>): (r: Counts)
    ensures r.unique == Unique(names)
    ensures |r.counts| == |r.unique| && |r.weights| == |names|
    ensures forall k :: 0 <= k < |r.unique| ==> r.counts[k] == Count(names, r.unique[k]) >= 1
    ensures forall i {:trigger r.weights[i]} :: 0 <= i < |names| ==> r.weights[i] == Inverse(Count(names, names[i]))
  {
    var unique := Unique(names);
    var attrIdx := seq(|names|, i requires 0 <= i < |names| => IndexOf(unique, names[i]));
    var counts := seq(|unique|, k requires 0 <= k < |unique| => Count(names, unique[k]));
    var weightAttr := seq(|unique|, k requires 0 <= k < |unique| => Inverse(counts[k]));
    Counts(unique, counts, seq(|names|, i requires 0 <= i < |names| => weightAttr[attrIdx[i]]))
  }

  /** The total weight of the samples named `u`. */
  function WeightOf(names: seq<string>, weights: seq<real>, u: string): real
    requires |names| == |weights|
  {
    if names == [] then 0.0
    else (if names[0] == u then weights[0] else 0.0) + WeightOf(names[1..], weights[1..], u)
  }

  lemma {:induction false} WeightOfConstant(names: seq<string>, weights: seq<real>, u: string, w: real)
    requires |names| == |weights|
    requires forall i :: 0 <= i < |names| && names[i] == u ==> weights[i] == w
    ensures WeightOf(names, weights, u) == Repeat(Count(names, u), w)
  {
    if names != [] {
      WeightOfConstant(names[1..], weights[1..], u, w);
    }
  }

  /** Inverse-frequency balancing: before normalisation the samples of each name weigh 1 in total. */
  lemma EachNameWeighsOne(names: seq<string>, u: string)
    requires u in names
    ensures WeightOf(names, CountAttributes(names).weights, u) == 1.0
  {
    var ws := CountAttributes(names).weights;
    WeightOfConstant(names, ws, u, Inverse(Count(names, u)));
    RepeatInverse(Count(names, u));
  }

  datatype BalancerError = UnknownMultiplierKey

  /** The assertion on `multi_dict` and `multiplier_samples`: every key must be a known
      name, and each sample is scaled by its name's multiplier or 1.0. */
  function Multipliers(names: seq<string>, multi: map<string, real>): (r: Result<seq<real>, BalancerError>)
    ensures r.Success? <==> forall k :: k in multi ==> k in names
    ensures r.Success? ==> |r.value| == |names|
    ensures r.Success? ==>
              forall i :: 0 <= i < |names| ==> r.value[i] == if names[i] in multi then multi[names[i]] else 1.0
  {
    var known := Unique(names);
    if exists k :: k in multi && k !in known then Failure(UnknownMultiplierKey)
    else Success(seq(|names|, i requires 0 <= i < |names| => if names[i] in multi then multi[names[i]] else 1.0))
  }
}
