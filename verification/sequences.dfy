/** Generic passes over a sequence: the first element with a property,
    a map that stops at the first failure, and a filter-map that keeps what
    a function admits and lists what it refuses. */
module Sequences {
  import opened Results

  /** The index of the first element that satisfies `p`. */
  function FirstIndex<T>(xs: seq<T>, p: T -> bool): (r: Option<nat>)
    ensures r.Some? ==> r.value < |xs| && p(xs[r.value])
    ensures r.Some? ==> forall j :: 0 <= j < r.value ==> !p(xs[j])
    ensures r.None? <==> forall j :: 0 <= j < |xs| ==> !p(xs[j])
  {
    if xs == [] then None
    else if p(xs[0]) then Some(0)
    else
      assert forall j :: 1 <= j < |xs| ==> xs[j] == xs[1..][j - 1];
      match FirstIndex(xs[1..], p)
      case None => None
      case Some(k) => Some(k + 1)
  }

  /** `f` applied to every element in order, or the first failure. */
  function Traverse<T, U, E>(xs: seq<T>, f: T -> Result<U, E>): (r: Result<seq<U>, E>)
    ensures r.Success? <==> forall i :: 0 <= i < |xs| ==> f(xs[i]).Success?
    ensures r.Success? ==> |r.value| == |xs| && forall i :: 0 <= i < |xs| ==> f(xs[i]) == Success(r.value[i])
    ensures r.Failure? ==> exists i :: 0 <= i < |xs| && f(xs[i]) == Failure(r.error) &&
                                       forall j :: 0 <= j < i ==> f(xs[j]).Success?
  {
    if xs == [] then Success([])
    else
      assert forall i :: 1 <= i < |xs| ==> xs[i] == xs[1..][i - 1];
      match f(xs[0])
      case Failure(e) => Failure(e)
      case Success(u) =>
        var rest :- Traverse(xs[1..], f);
        Success([u] + rest)
  }

  /** Keeps, in order, the values `admit` yields, and lists, in order, the
      elements it refuses. */
  function Sift<T, U>(xs: seq<T>, admit: T -> Option<U>): (r: (seq<U>, seq<T>))
    ensures |r.0| + |r.1| == |xs|
  {
    if xs == [] then ([], [])
    else
      var rest := Sift(xs[1..], admit);
      match admit(xs[0])
      case Some(u) => ([u] + rest.0, rest.1)
      case None => (rest.0, [xs[0]] + rest.1)
  }

  /** Every kept value comes from an admitted element and every admitted
      element's value is kept; the refused elements are exactly those
      `admit` turns down. */
  lemma {:induction false} SiftMembers<T, U>(xs: seq<T>, admit: T -> Option<U>)
    ensures var r := Sift(xs, admit);
            && (forall i :: 0 <= i < |r.0| ==> exists j :: 0 <= j < |xs| && admit(xs[j]) == Some(r.0[i]))
            && (forall j :: 0 <= j < |xs| && admit(xs[j]).Some? ==> admit(xs[j]).value in r.0)
            && (forall i :: 0 <= i < |r.1| ==> r.1[i] in xs && admit(r.1[i]).None?)
            && (forall j :: 0 <= j < |xs| && admit(xs[j]).None? ==> xs[j] in r.1)
    decreases |xs|
  {
    if xs != [] {
      assert forall j :: 1 <= j < |xs| ==> xs[j] == xs[1..][j - 1];
      SiftMembers(xs[1..], admit);
      var rest := Sift(xs[1..], admit);
      match admit(xs[0])
      case Some(u) =>
        var out := [u] + rest.0;
        assert Sift(xs, admit) == (out, rest.1);
        assert forall i :: 1 <= i < |out| ==> out[i] == rest.0[i - 1];
      case None =>
        assert Sift(xs, admit) == (rest.0, [xs[0]] + rest.1);
    }
  }

  /** `Sift` works element by element: sifting a concatenation
      concatenates the kept values and the refused elements. */
  lemma {:induction false} SiftAppend<T, U>(xs: seq<T>, ys: seq<T>, admit: T -> Option<U>)
    ensures Sift(xs + ys, admit) == (Sift(xs, admit).0 + Sift(ys, admit).0, Sift(xs, admit).1 + Sift(ys, admit).1)
    decreases |xs|
  {
    if xs == [] {
      var b := Sift(ys, admit);
      assert xs + ys == ys;
      assert Sift(xs, admit) == ([], []);
      assert [] + b.0 == b.0 && [] + b.1 == b.1;
    } else {
      var zs := xs + ys;
      assert zs != [] && zs[0] == xs[0] && zs[1..] == xs[1..] + ys;
      SiftAppend(xs[1..], ys, admit);
      var a, b := Sift(xs[1..], admit), Sift(ys, admit);
      assert Sift(zs[1..], admit) == (a.0 + b.0, a.1 + b.1);
      match admit(xs[0])
      case Some(u) =>
        assert Sift(xs, admit) == ([u] + a.0, a.1);
        assert Sift(zs, admit) == ([u] + (a.0 + b.0), a.1 + b.1);
        assert [u] + (a.0 + b.0) == ([u] + a.0) + b.0;
      case None =>
        assert Sift(xs, admit) == (a.0, [xs[0]] + a.1);
        assert Sift(zs, admit) == (a.0 + b.0, [xs[0]] + (a.1 + b.1));
        assert [xs[0]] + (a.1 + b.1) == ([xs[0]] + a.1) + b.1;
    }
  }

  /** One element is kept as the value `admit` yields, or refused. */
  lemma SiftSingle<T, U>(x: T, admit: T -> Option<U>)
    ensures Sift([x], admit) == match admit(x) case Some(u) => ([u], []) case None => ([], [x])
  {
    assert [x][0] == x && [x][1..] == [];
    assert Sift([x][1..], admit) == ([], []);
    match admit(x)
    case Some(u) => assert [u] + [] == [u];
    case None => assert [x] + [] == [x];
  }
}
