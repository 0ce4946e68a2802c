/** The lexicographic order in which an ordered string map is traversed. */
module NameOrder {

  predicate Before(a: string, b: string) {
    if b == "" then false
    else if a == "" then true
    else a[0] < b[0] || (a[0] == b[0] && Before(a[1..], b[1..]))
  }

  lemma {:induction false} BeforeTotal(a: string, b: string)
    ensures a == b || Before(a, b) || Before(b, a)
    ensures !(Before(a, b) && Before(b, a)) && !Before(a, a)
  {
    if a != "" {
      if b != "" {
        BeforeTotal(a[1..], b[1..]);
        assert a == [a[0]] + a[1..] && b == [b[0]] + b[1..];
      }
      BeforeTotal(a[1..], a[1..]);
    }
  }

  lemma {:induction false} BeforeTransitive(a: string, b: string, c: string)
    requires Before(a, b) && Before(b, c)
    ensures Before(a, c)
  {
    if a != "" {
      if a[0] == b[0] == c[0] {
        BeforeTransitive(a[1..], b[1..], c[1..]);
      }
    }
  }

  predicate IsFirst(name: string, names: set<string>) {
    name in names && forall other :: other in names && other != name ==> Before(name, other)
  }

  lemma {:induction false} FirstExists(names: set<string>)
    requires names != {}
    ensures exists name :: IsFirst(name, names)
    decreases names
  {
    var name :| name in names;
    var rest := names - {name};
    if rest == {} {
      assert names == {name} + rest;
      assert IsFirst(name, names);
    } else {
      FirstExists(rest);
      var first :| IsFirst(first, rest);
      BeforeTotal(name, first);
      if Before(first, name) {
        assert IsFirst(first, names);
      } else {
        forall other | other in rest
          ensures Before(name, other)
        {
          if other != first {
            BeforeTransitive(name, first, other);
          }
        }
        assert IsFirst(name, names);
      }
    }
  }

  lemma FirstUnique(a: string, b: string, names: set<string>)
    requires IsFirst(a, names) && IsFirst(b, names)
    ensures a == b
  {
    BeforeTotal(a, b);
  }

  /** The names in map order. */
  ghost function Sorted(names: set<string>): (s: seq<string>)
    ensures |s| == |names| && forall name :: name in s <==> name in names
    ensures forall i, j :: 0 <= i < j < |s| ==> s[i] != s[j]
    decreases |names|
  {
    if names == {} then []
    else
      FirstExists(names);
      var name :| IsFirst(name, names);
      [name] + Sorted(names - {name})
  }

  lemma SortedStep(names: set<string>, name: string)
    requires IsFirst(name, names)
    ensures Sorted(names) == [name] + Sorted(names - {name})
  {
    var first :| IsFirst(first, names) && Sorted(names) == [first] + Sorted(names - {first});
    FirstUnique(first, name, names);
  }

  /** The names come in strictly increasing order. */
  lemma {:induction false} SortedIncreases(names: set<string>)
    ensures forall i, j :: 0 <= i < j < |Sorted(names)| ==> Before(Sorted(names)[i], Sorted(names)[j])
    decreases |names|
  {
    hide Before, Sorted;
    if names == {} {
      SortedNone();
    } else {
      FirstExists(names);
      var name :| IsFirst(name, names);
      SortedStep(names, name);
      SortedIncreases(names - {name});
      var rest := Sorted(names - {name});
      forall i, j | 0 <= i < j < |Sorted(names)|
        ensures Before(Sorted(names)[i], Sorted(names)[j])
      {
        assert rest[j - 1] in rest;
        if i > 0 {
          assert Before(rest[i - 1], rest[j - 1]);
        }
      }
    }
  }

  lemma SortedNone()
    ensures Sorted({}) == []
  {
  }

  /** The first name in map order. */
  method FirstName(names: set<string>) returns (name: string)
    requires names != {}
    ensures IsFirst(name, names)
  {
    name :| name in names;
    var rest := names - {name};
    while rest != {}
      invariant name in names && rest <= names && name !in rest
      invariant forall other :: other in names && other !in rest && other != name ==> Before(name, other)
      decreases rest
    {
      var next :| next in rest;
      BeforeTotal(name, next);
      if Before(next, name) {
        forall other | other in names && other !in rest
          ensures Before(next, other)
        {
          if other != name {
            BeforeTransitive(next, name, other);
          }
        }
        name := next;
      }
      rest := rest - {next};
    }
  }
}
