/** The query string of a URL (`URLSearchParams`) as an ordered list of
    name/value pairs. Percent-encoding is not modelled: names and values are
    the decoded texts. */
module Url {
  import opened Wrappers

  type Query = seq<(string, string)>

  /** `params.get(name)`: the value of the first pair with that name. */
  function Get(q: Query, name: string): (r: Option<string>)
    ensures r.None? <==> forall i :: 0 <= i < |q| ==> q[i].0 != name
    ensures r.Some? ==> (name, r.value) in q
  {
    if q == [] then None
    else if q[0].0 == name then Some(q[0].1)
    else Get(q[1..], name)
  }

  /** `get` finds the first pair with the name, whatever follows it. */
  lemma {:induction false} GetFirst(q: Query, name: string, i: nat)
    requires i < |q| && q[i].0 == name
    requires forall j :: 0 <= j < i ==> q[j].0 != name
    ensures Get(q, name) == Some(q[i].1)
  {
    if i > 0 {
      GetFirst(q[1..], name, i - 1);
    }
  }

  /** The pairs whose name is not `name`, in order. */
  function Without(q: Query, name: string): (r: Query)
    ensures |r| <= |q|
    ensures forall i :: 0 <= i < |r| ==> r[i].0 != name
    ensures forall x :: x in r <==> x in q && x.0 != name
  {
    if q == [] then []
    else if q[0].0 == name then Without(q[1..], name)
    else [q[0]] + Without(q[1..], name)
  }

  /** `Without` works piece by piece, keeping the order of the pieces. */
  lemma {:induction false} WithoutConcat(a: Query, b: Query, name: string)
    ensures Without(a + b, name) == Without(a, name) + Without(b, name)
  {
    if a == [] {
      assert a + b == b;
    } else {
      var ab := a + b;
      assert ab[0] == a[0] && ab[1..] == a[1..] + b;
      WithoutConcat(a[1..], b, name);
      if a[0].0 == name {
        assert Without(ab, name) == Without(a[1..] + b, name);
      } else {
        assert Without(ab, name) == [a[0]] + Without(a[1..] + b, name);
        assert Without(a, name) == [a[0]] + Without(a[1..], name);
      }
    }
  }

  /** On one pair: a pair with the name is dropped, any other is kept.
      With `WithoutConcat` this fixes `Without` on every query. */
  lemma WithoutOne(x: (string, string), name: string)
    ensures Without([x], name) == if x.0 == name then [] else [x]
  {
    assert [x][1..] == [];
  }

  /** `params.set(name, value)`: the first pair with that name takes the
      value and later pairs with that name are removed; when there is none,
      the pair is appended. */
  function Set(q: Query, name: string, value: string): (r: Query)
    ensures (name, value) in r
    ensures forall x :: x in r ==> x == (name, value) || (x in q && x.0 != name)
  {
    if q == [] then [(name, value)]
    else if q[0].0 == name then [(name, value)] + Without(q[1..], name)
    else [q[0]] + Set(q[1..], name, value)
  }

  /** How many pairs carry `name`. */
  function Count(q: Query, name: string): nat
  {
    if q == [] then 0 else (if q[0].0 == name then 1 else 0) + Count(q[1..], name)
  }

  lemma {:induction false} CountWithout(q: Query, name: string)
    ensures Count(Without(q, name), name) == 0
  {
    if q != [] {
      CountWithout(q[1..], name);
      if q[0].0 != name {
        assert ([q[0]] + Without(q[1..], name))[1..] == Without(q[1..], name);
      }
    }
  }

  /** After `set`, reading the name gives the value that was set, and the
      name occurs exactly once. */
  lemma {:induction false} GetSet(q: Query, name: string, value: string)
    ensures Get(Set(q, name, value), name) == Some(value)
    ensures Count(Set(q, name, value), name) == 1
  {
    if q == [] {
    } else if q[0].0 == name {
      CountWithout(q[1..], name);
      assert ([(name, value)] + Without(q[1..], name))[1..] == Without(q[1..], name);
    } else {
      GetSet(q[1..], name, value);
      assert ([q[0]] + Set(q[1..], name, value))[1..] == Set(q[1..], name, value);
    }
  }

  lemma {:induction false} WithoutOther(q: Query, name: string, other: string)
    requires name != other
    ensures Without(Without(q, name), other) == Without(Without(q, other), name)
  {
    if q != [] {
      WithoutOther(q[1..], name, other);
      if q[0].0 != name {
        assert ([q[0]] + Without(q[1..], name))[1..] == Without(q[1..], name);
      }
      if q[0].0 != other {
        assert ([q[0]] + Without(q[1..], other))[1..] == Without(q[1..], other);
      }
    }
  }

  lemma {:induction false} WithoutTwice(q: Query, name: string)
    ensures Without(Without(q, name), name) == Without(q, name)
  {
    if q != [] {
      WithoutTwice(q[1..], name);
      if q[0].0 != name {
        assert ([q[0]] + Without(q[1..], name))[1..] == Without(q[1..], name);
      }
    }
  }

  /** `set` leaves every pair with another name where it was. */
  lemma {:induction false} SetKeepsOthers(q: Query, name: string, value: string)
    ensures Without(Set(q, name, value), name) == Without(q, name)
  {
    if q == [] {
    } else if q[0].0 == name {
      assert ([(name, value)] + Without(q[1..], name))[1..] == Without(q[1..], name);
      WithoutTwice(q[1..], name);
    } else {
      SetKeepsOthers(q[1..], name, value);
      assert ([q[0]] + Set(q[1..], name, value))[1..] == Set(q[1..], name, value);
    }
  }

  /** A second `set` of the same name replaces the first one's value and
      leaves the query as one `set` would have. */
  lemma {:induction false} SetTwice(q: Query, name: string, first: string, second: string)
    ensures Set(Set(q, name, first), name, second) == Set(q, name, second)
  {
    if q == [] {
      assert Set([(name, first)], name, second) == [(name, second)] + Without([], name);
    } else if q[0].0 == name {
      var once := [(name, first)] + Without(q[1..], name);
      assert once[0].0 == name && once[1..] == Without(q[1..], name);
      WithoutTwice(q[1..], name);
    } else {
      var once := [q[0]] + Set(q[1..], name, first);
      assert once[0] == q[0] && once[1..] == Set(q[1..], name, first);
      SetTwice(q[1..], name, first, second);
    }
  }
}
