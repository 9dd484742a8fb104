/** The first occurrences in a list, in their order. */
module Firsts {
  ghost function Elems<T>(s: seq<T>): (r: set<T>)
    ensures (forall x :: x in r ==> x in s) && (forall x :: x in s ==> x in r)
  {
    set x | x in s
  }

  // The members of a list that are not in the set, each where it comes first.
  ghost function New<T>(seen: set<T>, s: seq<T>): (r: seq<T>)
    ensures forall x :: x in r ==> x in s && x !in seen
    ensures forall x :: x in s && x !in seen ==> x in r
    decreases |s|
  {
    if s == [] then []
    else if s[0] in seen then New(seen, s[1..])
    else [s[0]] + New(seen + {s[0]}, s[1..])
  }

  lemma {:induction false} NewAppend<T>(seen: set<T>, s: seq<T>, t: seq<T>)
    ensures New(seen, s + t) == New(seen, s) + New(seen + Elems(s), t)
    decreases |s|
  {
    if s == [] {
      assert s + t == t && seen + Elems(s) == seen;
    } else {
      assert (s + t)[0] == s[0] && (s + t)[1..] == s[1..] + t;
      var now := if s[0] in seen then seen else seen + {s[0]};
      NewAppend(now, s[1..], t);
      assert now + Elems(s[1..]) == seen + Elems(s);
    }
  }

  lemma {:induction false} NothingNew<T>(seen: set<T>, s: seq<T>)
    requires forall x :: x in s ==> x in seen
    ensures New(seen, s) == []
  {
    if s != [] {
      NothingNew(seen, s[1..]);
    }
  }

  // What comes first may as well be taken beforehand.
  lemma {:induction false} NewStep<T>(seen: set<T>, s: seq<T>)
    requires New(seen, s) != []
    ensures New(seen, s) == [New(seen, s)[0]] + New(seen + {New(seen, s)[0]}, s)
    decreases |s|
  {
    if s[0] in seen {
      NewStep(seen, s[1..]);
    }
  }
}
