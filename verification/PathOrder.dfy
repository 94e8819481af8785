/** Paths in the order in which a sorted set yields them: by their first difference, a path before what is below it. */
module PathOrder {
  import opened Cells
  import Prolly

  predicate Before(a: Path, b: Path) {
    b != [] && (a == [] || Prolly.Less(a[0], b[0]) || (a[0] == b[0] && Before(a[1..], b[1..])))
  }

  lemma {:induction false} BeforeTrans(a: Path, b: Path, c: Path)
    requires Before(a, b) && Before(b, c)
    ensures Before(a, c)
    decreases |c|
  {
    hide Prolly.Less;
    if a != [] {
      Prolly.LessTotal(a[0], b[0]);
      Prolly.LessTotal(b[0], c[0]);
      if a[0] == b[0] && b[0] == c[0] {
        BeforeTrans(a[1..], b[1..], c[1..]);
      } else if Prolly.Less(a[0], b[0]) && Prolly.Less(b[0], c[0]) {
        Prolly.LessTrans(a[0], b[0], c[0]);
      }
    }
  }

  lemma {:induction false} BeforeTotal(a: Path, b: Path)
    ensures Before(a, b) || Before(b, a) || a == b
    ensures !(Before(a, b) && Before(b, a)) && !Before(a, a)
    decreases |a|
  {
    hide Prolly.Less;
    if a != [] {
      Prolly.LessTotal(a[0], a[0]);
      BeforeTotal(a[1..], a[1..]);
      if b != [] {
        Prolly.LessTotal(a[0], b[0]);
        BeforeTotal(a[1..], b[1..]);
        if a[0] == b[0] && a[1..] == b[1..] {
          assert a == [a[0]] + a[1..] == b;
        }
      }
    }
  }

  /** A path comes before everything below it. */
  lemma {:induction false} PrefixBefore(a: Path, b: Path)
    requires a < b
    ensures Before(a, b)
    decreases |a|
  {
    hide Prolly.Less;
    if a != [] {
      assert a[0] == b[0] && a[1..] < b[1..];
      PrefixBefore(a[1..], b[1..]);
    }
  }

  ghost predicate IsFirst(s: set<Path>, p: Path) {
    p in s && forall q :: q in s ==> q == p || Before(p, q)
  }

  lemma {:induction false} FirstExists(s: set<Path>)
    requires s != {}
    ensures exists p :: IsFirst(s, p)
    decreases |s|
  {
    hide Before;
    var x :| x in s;
    var rest := s - {x};
    if rest == {} {
      assert forall q :: q in s && q != x ==> q in rest;
      assert IsFirst(s, x);
    } else {
      FirstExists(rest);
      var m :| IsFirst(rest, m);
      BeforeTotal(x, m);
      if Before(x, m) {
        forall q | q in s
          ensures q == x || Before(x, q)
        {
          if q != x && q != m {
            BeforeTrans(x, m, q);
          }
        }
        assert IsFirst(s, x);
      } else {
        assert IsFirst(s, m);
      }
    }
  }

  lemma {:induction false} FirstUnique(s: set<Path>)
    ensures forall p, q :: IsFirst(s, p) && IsFirst(s, q) ==> p == q
  {
    hide Before;
    forall p, q | IsFirst(s, p) && IsFirst(s, q)
      ensures p == q
    {
      BeforeTotal(p, q);
    }
  }

  predicate Leads(s: set<Path>, p: Path)
    ensures Leads(s, p) <==> forall q :: q in s ==> q == p || Before(p, q)
  {
    forall q | q in s :: q == p || Before(p, q)
  }

  function First(s: set<Path>): (p: Path)
    requires s != {}
    ensures IsFirst(s, p)
  {
    hide Before;
    FirstExists(s);
    FirstUnique(s);
    assert forall p :: p in s && Leads(s, p) <==> IsFirst(s, p);
    var p :| p in s && Leads(s, p);
    p
  }

  /** The paths of a set in order. */
  function InOrder(s: set<Path>): (r: seq<Path>)
    ensures forall p :: p in r <==> p in s
    ensures forall i, j :: 0 <= i < j < |r| ==> Before(r[i], r[j])
    decreases |s|
  {
    hide Before;
    if s == {} then []
    else
      var p := First(s);
      var rest := InOrder(s - {p});
      assert forall q :: q in s <==> q == p || q in rest;
      [p] + rest
  }

  /** When a path's turn comes, exactly the listed paths before it are done; those above it are among them. */
  lemma {:induction false} DoneAbove(s: set<Path>, i: nat, q: Path)
    requires i < |InOrder(s)| && q in s
    ensures q < InOrder(s)[i] ==> q in InOrder(s)[..i]
    ensures InOrder(s)[i] < q ==> q !in InOrder(s)[..i]
  {
    hide Before;
    var r := InOrder(s);
    var j :| 0 <= j < |r| && r[j] == q;
    if q < r[i] {
      PrefixBefore(q, r[i]);
      BeforeTotal(q, r[i]);
      BeforeTotal(q, q);
      assert j < i;
      assert r[..i][j] == q;
    }
    if r[i] < q && q in r[..i] {
      var m :| 0 <= m < i && r[m] == q;
      PrefixBefore(r[i], q);
      BeforeTotal(r[i], q);
    }
  }
}
