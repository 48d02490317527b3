/** The two query shapes the core uses on its remote tables: a filter made of
    `.eq(column, value)` clauses, and `.single()`, which yields a row only when
    exactly one row passed the filter (zero rows or several rows are an error,
    which the callers read as "no row"). */
module Query {
  import opened Wrappers

  /** The rows of `s` that satisfy `p`, in table order. */
  function Where<T>(s: seq<T>, p: T -> bool): (r: seq<T>)
    ensures |r| <= |s|
    ensures forall i :: 0 <= i < |r| ==> r[i] in s && p(r[i])
  {
    if s == [] then []
    else Where(s[..|s| - 1], p) + (if p(s[|s| - 1]) then [s[|s| - 1]] else [])
  }

  /** `.single()`: the row when exactly one row matched. */
  function Single<T>(s: seq<T>): (r: Option<T>)
    ensures r.Some? <==> |s| == 1
    ensures r.Some? ==> r.value == s[0]
  {
    if |s| == 1 then Some(s[0]) else None
  }

  /** Inserting a row at the end of a table adds it to the end of every filter it passes. */
  lemma WhereAppend<T>(s: seq<T>, x: T, p: T -> bool)
    ensures Where(s + [x], p) == Where(s, p) + (if p(x) then [x] else [])
  {
    assert (s + [x])[..|s + [x]| - 1] == s;
  }

  /** A filter is empty exactly when no row passes it. */
  lemma WhereEmpty<T>(s: seq<T>, p: T -> bool)
    ensures Where(s, p) == [] <==> forall i :: 0 <= i < |s| ==> !p(s[i])
  {
    if Where(s, p) == [] {
      forall i | 0 <= i < |s| ensures !p(s[i]) {
        if p(s[i]) {
          WhereHas(s, i, p);
        }
      }
    } else {
      var x := Where(s, p)[0];
      assert x in s && p(x);
      var i :| 0 <= i < |s| && s[i] == x;
    }
  }

  /** Changing rows without changing which of them pass the filter keeps its size. */
  lemma {:induction false} WhereSameCount<T>(s: seq<T>, t: seq<T>, p: T -> bool)
    requires |s| == |t|
    requires forall i :: 0 <= i < |s| ==> p(s[i]) == p(t[i])
    ensures |Where(s, p)| == |Where(t, p)|
  {
    if s != [] {
      WhereSameCount(s[..|s| - 1], t[..|t| - 1], p);
    }
  }

  /** A row that passes the filter is in its result, so the result is not empty. */
  lemma {:induction false} WhereHas<T>(s: seq<T>, i: nat, p: T -> bool)
    requires i < |s| && p(s[i])
    ensures s[i] in Where(s, p) && |Where(s, p)| >= 1
  {
    if i < |s| - 1 {
      WhereHas(s[..|s| - 1], i, p);
    }
  }

  /** When at most one row passes the filter, a row that passes is its whole result. */
  lemma WhereSingleton<T>(s: seq<T>, i: nat, p: T -> bool)
    requires i < |s| && p(s[i]) && |Where(s, p)| <= 1
    ensures Where(s, p) == [s[i]]
  {
    WhereHas(s, i, p);
  }

  /** Every row that passes the filter is in its result. */
  lemma WhereKeepsAll<T>(s: seq<T>, p: T -> bool)
    ensures forall i :: 0 <= i < |s| && p(s[i]) ==> s[i] in Where(s, p)
  {
    forall i | 0 <= i < |s| && p(s[i]) ensures s[i] in Where(s, p) {
      WhereHas(s, i, p);
    }
  }

  /** Filtering keeps table order: the rows of `a + b` that pass are those of `a`, then
      those of `b`. */
  lemma {:induction false} WhereConcat<T>(a: seq<T>, b: seq<T>, p: T -> bool)
    ensures Where(a + b, p) == Where(a, p) + Where(b, p)
  {
    if b == [] {
      assert a + b == a;
    } else {
      var b', x := b[..|b| - 1], b[|b| - 1];
      assert b == b' + [x];
      assert a + b == (a + b') + [x];
      WhereConcat(a, b', p);
      WhereAppend(a + b', x, p);
      WhereAppend(b', x, p);
    }
  }

  /** When the row at `i` is the only one that passes, it is the filter's whole result. */
  lemma {:induction false} WhereOnly<T>(s: seq<T>, i: nat, p: T -> bool)
    requires i < |s| && p(s[i])
    requires forall j :: 0 <= j < |s| && j != i ==> !p(s[j])
    ensures Where(s, p) == [s[i]]
  {
    var init := s[..|s| - 1];
    if i == |s| - 1 {
      assert Where(init, p) == [] by {
        WhereEmpty(init, p);
      }
    } else {
      WhereOnly(init, i, p);
    }
  }

  /** A filter every row passes returns the table unchanged. */
  lemma {:induction false} WhereAll<T>(s: seq<T>, p: T -> bool)
    requires forall i :: 0 <= i < |s| ==> p(s[i])
    ensures Where(s, p) == s
  {
    if s != [] {
      WhereAll(s[..|s| - 1], p);
    }
  }

  /** `Array.prototype.find`, and a `for ... of` loop that returns on its first hit:
      the first row in order that passes `p`. */
  function First<T>(s: seq<T>, p: T -> bool): (r: Option<T>)
    ensures r.Some? ==> exists k :: 0 <= k < |s| && s[k] == r.value && p(s[k]) &&
                                    forall j :: 0 <= j < k ==> !p(s[j])
    ensures r.None? <==> forall j :: 0 <= j < |s| ==> !p(s[j])
  {
    if s == [] then None
    else if p(s[0]) then Some(s[0])
    else
      var r := First(s[1..], p);
      assert r.Some? ==> exists k :: 1 <= k < |s| && s[k] == r.value && p(s[k]) &&
                                     forall j :: 0 <= j < k ==> !p(s[j]);
      r
  }
}
