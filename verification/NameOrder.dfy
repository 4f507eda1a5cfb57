/** Names in order: what sorting a list of names and dropping repeats yields. */
module NameOrder {

  type Name = string

  predicate Below(a: Name, b: Name) {
    b != "" && (a == "" || if a[0] != b[0] then a[0] < b[0] else Below(a[1..], b[1..]))
  }

  lemma {:induction false} BelowTotal(a: Name, b: Name)
    ensures Below(a, b) || a == b || Below(b, a)
  {
    if a != "" && b != "" && a[0] == b[0] {
      BelowTotal(a[1..], b[1..]);
      assert a == [a[0]] + a[1..] && b == [b[0]] + b[1..];
    }
  }

  lemma {:induction false} BelowIrreflexive(a: Name)
    ensures !Below(a, a)
  {
    if a != "" {
      BelowIrreflexive(a[1..]);
    }
  }

  lemma {:induction false} BelowTransitive(a: Name, b: Name, c: Name)
    requires Below(a, b) && Below(b, c)
    ensures Below(a, c)
  {
    if a != "" && a[0] == b[0] && b[0] == c[0] {
      BelowTransitive(a[1..], b[1..], c[1..]);
    }
  }

  ghost predicate Ascending(s: seq<Name>) {
    forall i, j :: 0 <= i < j < |s| ==> Below(s[i], s[j])
  }

  // Adds a name to an ascending list, unless it is there.
  function Insert(x: Name, s: seq<Name>): (r: seq<Name>)
    ensures forall y :: y in r <==> y == x || y in s
  {
    if s == [] then [x]
    else if x == s[0] then s
    else if Below(x, s[0]) then [x] + s
    else
      assert s == [s[0]] + s[1..];
      [s[0]] + Insert(x, s[1..])
  }

  lemma {:induction false} InsertAscends(x: Name, s: seq<Name>)
    requires Ascending(s)
    ensures Ascending(Insert(x, s))
  {
    if s != [] && x != s[0] {
      if Below(x, s[0]) {
        forall i | 0 <= i < |s|
          ensures Below(x, s[i])
        {
          if i > 0 {
            BelowTransitive(x, s[0], s[i]);
          }
        }
      } else {
        BelowTotal(x, s[0]);
        InsertAscends(x, s[1..]);
        var rest := Insert(x, s[1..]);
        forall j | 0 <= j < |rest|
          ensures Below(s[0], rest[j])
        {
          assert rest[j] in rest;
          if rest[j] in s[1..] {
            var k :| 0 <= k < |s[1..]| && s[1..][k] == rest[j];
            assert Below(s[0], s[k + 1]);
          }
        }
      }
    }
  }

  // `sort` followed by `dedup`.
  function SortDedup(s: seq<Name>): (r: seq<Name>)
    ensures Ascending(r)
    ensures forall y :: y in r <==> y in s
  {
    if s == [] then []
    else
      InsertAscends(s[0], SortDedup(s[1..]));
      assert s == [s[0]] + s[1..];
      Insert(s[0], SortDedup(s[1..]))
  }

  // An ascending list is determined by its members: the order names were collected in does not matter.
  lemma {:induction false} AscendingUnique(a: seq<Name>, b: seq<Name>)
    requires Ascending(a) && Ascending(b)
    requires forall y :: y in a <==> y in b
    ensures a == b
    decreases |a|
  {
    assert b != [] ==> b[0] in b;
    if a != [] {
      assert a[0] in b;
      FirstIsLeast(a, b);
      FirstIsLeast(b, a);
      BelowIrreflexive(a[0]);
      if a[0] != b[0] {
        BelowTransitive(a[0], b[0], a[0]);
      }
      forall y | y in a[1..]
        ensures y in b[1..]
      {
        RestIsOther(a, b, y);
      }
      forall y | y in b[1..]
        ensures y in a[1..]
      {
        RestIsOther(b, a, y);
      }
      AscendingUnique(a[1..], b[1..]);
    }
  }

  lemma FirstIsLeast(a: seq<Name>, b: seq<Name>)
    requires Ascending(a) && a != [] && b != [] && forall y :: y in b ==> y in a
    ensures a[0] == b[0] || Below(a[0], b[0])
  {
    assert b[0] in a;
    var k :| 0 <= k < |a| && a[k] == b[0];
  }

  lemma RestIsOther(a: seq<Name>, b: seq<Name>, y: Name)
    requires Ascending(a) && a != [] && b != [] && a[0] == b[0] && y in a[1..] && y in b
    ensures y in b[1..]
  {
    var k :| 0 <= k < |a[1..]| && a[1..][k] == y;
    assert Below(a[0], a[k + 1]);
    BelowIrreflexive(y);
  }
}
