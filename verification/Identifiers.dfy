/** Why natural numbers may stand for the program's identifier strings: only equality, order and
    emptiness of ids are ever used, and numbering any finite set of strings keeps all three. */
module Identifiers {
  import opened Core
  import opened Ordering

  /** Strings compared character by character; a proper prefix comes first. */
  predicate TextLess(a: string, b: string) {
    if a == [] || b == [] then a == [] && b != []
    else a[0] < b[0] || (a[0] == b[0] && TextLess(a[1..], b[1..]))
  }

  lemma {:induction false} TextIsIrreflexive(a: string)
    ensures !TextLess(a, a)
  {
    if a != [] { TextIsIrreflexive(a[1..]); }
  }

  lemma {:induction false} TextIsTransitive(a: string, b: string, c: string)
    requires TextLess(a, b) && TextLess(b, c)
    ensures TextLess(a, c)
  {
    if a != [] && a[0] == b[0] == c[0] { TextIsTransitive(a[1..], b[1..], c[1..]); }
  }

  lemma {:induction false} TextIsTotal(a: string, b: string)
    ensures a == b || TextLess(a, b) || TextLess(b, a)
  {
    if a != [] && b != [] && a[0] == b[0] {
      TextIsTotal(a[1..], b[1..]);
      assert a == [a[0]] + a[1..] && b == [b[0]] + b[1..];
    }
  }

  function Below(names: set<string>, s: string): set<string> {
    set t | t in names && TextLess(t, s)
  }

  /** The number given to a name: how many names come before it. */
  function Rank(names: set<string>, s: string): Id {
    |Below(names, s)|
  }

  lemma LessRanksLower(names: set<string>, a: string, b: string)
    requires a in names && TextLess(a, b)
    ensures Rank(names, a) < Rank(names, b)
  {
    forall t | t in Below(names, a) ensures t in Below(names, b) { TextIsTransitive(t, a, b); }
    TextIsIrreflexive(a);
    SubsetSize(Below(names, a) + {a}, Below(names, b));
  }

  /** Numbering keeps equality, order and emptiness. */
  lemma RankKeepsOrder(names: set<string>, a: string, b: string)
    requires a in names && b in names && "" in names
    ensures Rank(names, a) < Rank(names, b) <==> TextLess(a, b)
    ensures Rank(names, a) == Rank(names, b) <==> a == b
    ensures Rank(names, a) == EMPTY_ID <==> a == ""
  {
    TextIsTotal(a, b);
    TextIsIrreflexive(a);
    hide TextLess, Rank;
    if TextLess(a, b) { LessRanksLower(names, a, b); }
    if TextLess(b, a) { LessRanksLower(names, b, a); }
    EmptyRanksFirst(names, a);
  }

  lemma EmptyRanksFirst(names: set<string>, a: string)
    requires "" in names
    ensures Rank(names, a) == 0 <==> a == ""
  {
    if a == "" {
      assert Below(names, "") == {};
    } else {
      assert "" in Below(names, a);
    }
  }
}
