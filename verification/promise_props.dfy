/**
 `promiseProps`: turns an object of promises into a promise of the object of their values.
 The promises are taken as already settled, in the order `Object.keys` lists them.
 */
module PromiseUtil {

  /** A settled promise. */
  datatype Settled<V, E> = Fulfilled(value: V) | Rejected(reason: E)

  /**
   `Promise.all` on settled promises: every value in order when all are fulfilled; otherwise
   the reason of one of the rejected ones (here the first in key order).
   */
  function All<V, E>(ps: seq<Settled<V, E>>): (r: Settled<seq<V>, E>)
    ensures r.Fulfilled? <==> forall i :: 0 <= i < |ps| ==> ps[i].Fulfilled?
    ensures r.Fulfilled? ==> |r.value| == |ps| && forall i :: 0 <= i < |ps| ==> r.value[i] == ps[i].value
    ensures r.Rejected? ==> exists i :: 0 <= i < |ps| && ps[i] == Rejected(r.reason)
  {
    if |ps| == 0 then Fulfilled([])
    else
      match ps[0]
      case Rejected(e) => Rejected(e)
      case Fulfilled(v) =>
        match All(ps[1..])
        case Rejected(e) =>
          assert forall i :: 1 <= i < |ps| ==> ps[i] == ps[1..][i - 1];
          Rejected(e)
        case Fulfilled(vs) => Fulfilled([v] + vs)
  }

  /** `Object.keys(obj)` for an object given as its own properties in enumeration order. */
  function Keys<P>(obj: seq<(string, P)>): (ks: seq<string>)
    ensures |ks| == |obj| && forall i :: 0 <= i < |obj| ==> ks[i] == obj[i].0
  {
    seq(|obj|, i requires 0 <= i < |obj| => obj[i].0)
  }

  /** `Object.values(obj)`, in the same order as `Keys`. */
  function Values<P>(obj: seq<(string, P)>): (vs: seq<P>)
    ensures |vs| == |obj| && forall i :: 0 <= i < |obj| ==> vs[i] == obj[i].1
  {
    seq(|obj|, i requires 0 <= i < |obj| => obj[i].1)
  }

  /** An object never has the same property twice. */
  predicate DistinctKeys<P>(obj: seq<(string, P)>)
  {
    forall i, j :: 0 <= i < j < |obj| ==> obj[i].0 != obj[j].0
  }

  /** The keys among the first `n` of `keys`. */
  ghost function Prefix(keys: seq<string>, n: nat): set<string>
    requires n <= |keys|
  {
    set j | 0 <= j < n :: keys[j]
  }

  /** The loop of `promiseProps`: writes `vals[i]` under `keys[i]`, index by index, into a fresh object. */
  method Zip<V>(keys: seq<string>, vals: seq<V>) returns (res: map<string, V>)
    requires |keys| == |vals|
    requires forall i, j :: 0 <= i < j < |keys| ==> keys[i] != keys[j]
    ensures res.Keys == Prefix(keys, |keys|)
    ensures forall i :: 0 <= i < |keys| ==> res[keys[i]] == vals[i]
  {
    res := map[];
    var i := 0;
    while i < |keys|
      invariant 0 <= i <= |keys|
      invariant res.Keys == Prefix(keys, i)
      invariant forall j :: 0 <= j < i ==> res[keys[j]] == vals[j]
    {
      assert Prefix(keys, i + 1) == Prefix(keys, i) + {keys[i]};
      res := res[keys[i] := vals[i]];
      i := i + 1;
    }
  }

  /**
   The result object has exactly the input's keys, each paired with its own promise's value;
   it exists only when every promise is fulfilled, and otherwise the call fails with one of
   the rejection reasons. An empty object gives an empty one.
   */
  method PromiseProps<V, E>(obj: seq<(string, Settled<V, E>)>) returns (r: Settled<map<string, V>, E>)
    requires DistinctKeys(obj)
    ensures r.Fulfilled? <==> forall i :: 0 <= i < |obj| ==> obj[i].1.Fulfilled?
    ensures r.Fulfilled? ==> r.value.Keys == set i | 0 <= i < |obj| :: obj[i].0
    ensures r.Fulfilled? ==> forall i :: 0 <= i < |obj| ==> r.value[obj[i].0] == obj[i].1.value
    ensures r.Rejected? ==> exists i :: 0 <= i < |obj| && obj[i].1 == Rejected(r.reason)
    ensures |obj| == 0 ==> r == Fulfilled(map[])
  {
    var keys := Keys(obj);
    var values := Values(obj);
    match All(values)
    case Rejected(e) =>
      r := Rejected(e);
    case Fulfilled(resolved) =>
      var res := Zip(keys, resolved);
      assert Prefix(keys, |keys|) == set i | 0 <= i < |obj| :: obj[i].0;
      r := Fulfilled(res);
  }
}
