/**
 * `videos.sort((a, b) => b.publishDate - a.publishDate)`. The comparator
 * orders by publish date, newest first, and `Array.prototype.sort` is
 * stable, so videos with equal dates keep their relative order. The sort is
 * modelled as a stable insertion sort, and the lemmas below show that its
 * result is the one stable newest-first ordering of its input.
 */
module NewestFirst {
  import opened Types

  /** Newest first: publish dates never increase along the sequence. */
  predicate Sorted(vs: seq<Video>)
  {
    forall i, j :: 0 <= i < j < |vs| ==> vs[i].publishDate >= vs[j].publishDate
  }

  /** The videos of vs published at instant d, in their order in vs. */
  function WithDate(vs: seq<Video>, d: int): seq<Video>
  {
    if vs == [] then []
    else (if vs[0].publishDate == d then [vs[0]] else []) + WithDate(vs[1..], d)
  }

  /** Puts v before the first video that is not newer than it. */
  function Insert(v: Video, vs: seq<Video>): seq<Video>
  {
    if vs == [] || vs[0].publishDate <= v.publishDate then [v] + vs
    else [vs[0]] + Insert(v, vs[1..])
  }

  /** Inserting adds exactly v. */
  lemma {:induction false} InsertPerm(v: Video, vs: seq<Video>)
    ensures multiset(Insert(v, vs)) == multiset(vs) + multiset{v}
  {
    if !(vs == [] || vs[0].publishDate <= v.publishDate) {
      InsertPerm(v, vs[1..]);
      assert vs == [vs[0]] + vs[1..];
    }
  }

  /** Inserting into a newest-first sequence keeps it newest first. */
  lemma {:induction false} InsertSorted(v: Video, vs: seq<Video>)
    requires Sorted(vs)
    ensures Sorted(Insert(v, vs))
  {
    if !(vs == [] || vs[0].publishDate <= v.publishDate) {
      var rest := Insert(v, vs[1..]);
      InsertSorted(v, vs[1..]);
      InsertPerm(v, vs[1..]);
      InsertBelowHead(v, vs, rest);
    }
  }

  /** When v is older than the head of a newest-first vs, the head may precede v inserted into the tail. */
  lemma InsertBelowHead(v: Video, vs: seq<Video>, rest: seq<Video>)
    requires vs != [] && vs[0].publishDate > v.publishDate && Sorted(vs)
    requires multiset(rest) == multiset(vs[1..]) + multiset{v}
    requires Sorted(rest)
    ensures Sorted([vs[0]] + rest)
  {
    forall k | 0 <= k < |rest| ensures rest[k].publishDate <= vs[0].publishDate {
      assert rest[k] in multiset(rest);
      if rest[k] != v {
        assert rest[k] in multiset(vs[1..]);
        assert rest[k] in vs[1..];
      }
    }
  }

  /** The sorted copy of vs: newest first, and the same videos. */
  function Sort(vs: seq<Video>): (r: seq<Video>)
    ensures Sorted(r)
    ensures multiset(r) == multiset(vs)
  {
    if vs == [] then []
    else
      var sortedTail := Sort(vs[1..]);
      InsertPerm(vs[0], sortedTail);
      InsertSorted(vs[0], sortedTail);
      assert vs == [vs[0]] + vs[1..];
      Insert(vs[0], sortedTail)
  }

  /** Inserting v adds it in front of the videos of its own date and leaves every other date alone. */
  lemma {:induction false} InsertWithDate(v: Video, vs: seq<Video>, d: int)
    ensures WithDate(Insert(v, vs), d) == (if v.publishDate == d then [v] else []) + WithDate(vs, d)
  {
    if vs == [] || vs[0].publishDate <= v.publishDate {
      var r := [v] + vs;
      assert Insert(v, vs) == r;
      assert r[0] == v && r[1..] == vs;
    } else {
      InsertWithDate(v, vs[1..], d);
      InsertBelowWithDate(v, vs, d);
    }
  }

  /** The videos of date d in a sequence with head x. */
  lemma WithDateCons(x: Video, rest: seq<Video>, d: int)
    ensures WithDate([x] + rest, d) == if x.publishDate == d then [x] + WithDate(rest, d) else WithDate(rest, d)
  {
    var r := [x] + rest;
    assert r[0] == x && r[1..] == rest;
    if x.publishDate != d {
      assert [] + WithDate(rest, d) == WithDate(rest, d);
    }
  }

  /** The step of InsertWithDate where v goes below the head of vs. */
  lemma InsertBelowWithDate(v: Video, vs: seq<Video>, d: int)
    requires vs != [] && vs[0].publishDate > v.publishDate
    requires WithDate(Insert(v, vs[1..]), d) == (if v.publishDate == d then [v] else []) + WithDate(vs[1..], d)
    ensures WithDate(Insert(v, vs), d) == (if v.publishDate == d then [v] else []) + WithDate(vs, d)
  {
    var head, tail := vs[0], vs[1..];
    var rest := Insert(v, tail);
    assert Insert(v, vs) == [head] + rest;
    assert vs == [head] + tail;
    WithDateCons(head, rest, d);
    WithDateCons(head, tail, d);
    if v.publishDate == d {
      assert head.publishDate != d;
    } else {
      assert [] + WithDate(vs, d) == WithDate(vs, d);
      assert [] + WithDate(tail, d) == WithDate(tail, d);
      if head.publishDate == d {
        assert WithDate(Insert(v, vs), d) == [head] + WithDate(rest, d);
      }
    }
  }

  /** Stability: for every date, the videos of that date appear in the same relative order as in the input. */
  lemma {:induction false} SortStable(vs: seq<Video>, d: int)
    ensures WithDate(Sort(vs), d) == WithDate(vs, d)
  {
    if vs != [] {
      SortStable(vs[1..], d);
      InsertWithDate(vs[0], Sort(vs[1..]), d);
    }
  }

  /** The first video of a newest-first sequence is the first of its own date. */
  lemma {:induction false} HeadLeadsItsDate(vs: seq<Video>)
    ensures vs != [] ==> WithDate(vs, vs[0].publishDate) != [] && WithDate(vs, vs[0].publishDate)[0] == vs[0]
  {
  }

  /** A date occurs in vs exactly when it has videos in WithDate. */
  lemma {:induction false} WithDateMembers(vs: seq<Video>, d: int)
    ensures WithDate(vs, d) != [] <==> exists i :: 0 <= i < |vs| && vs[i].publishDate == d
  {
    if vs != [] {
      WithDateMembers(vs[1..], d);
      if WithDate(vs[1..], d) != [] {
        var i :| 0 <= i < |vs[1..]| && vs[1..][i].publishDate == d;
        assert vs[i + 1].publishDate == d;
      }
      if exists i :: 0 <= i < |vs| && vs[i].publishDate == d {
        var i :| 0 <= i < |vs| && vs[i].publishDate == d;
        if i > 0 {
          assert vs[1..][i - 1].publishDate == d;
        }
      }
    }
  }

  /**
   * The result of a stable newest-first sort is unique: any newest-first
   * sequence that agrees with vs on the order within every date is Sort(vs).
   */
  lemma {:induction false} SortUnique(vs: seq<Video>, ws: seq<Video>)
    requires Sorted(ws)
    requires forall d :: WithDate(ws, d) == WithDate(vs, d)
    ensures ws == Sort(vs)
  {
    var us := Sort(vs);
    forall d ensures WithDate(ws, d) == WithDate(us, d) {
      SortStable(vs, d);
    }
    SortedAgree(ws, us);
  }

  /** Two non-empty newest-first sequences that agree on the dates of their heads start with the same video. */
  lemma HeadsAgree(ws: seq<Video>, us: seq<Video>)
    requires ws != [] && us != [] && Sorted(ws) && Sorted(us)
    requires WithDate(ws, ws[0].publishDate) == WithDate(us, ws[0].publishDate)
    requires WithDate(ws, us[0].publishDate) == WithDate(us, us[0].publishDate)
    ensures ws[0] == us[0]
  {
    var dw, du := ws[0].publishDate, us[0].publishDate;
    HeadLeadsItsDate(ws);
    HeadLeadsItsDate(us);
    // both heads carry the newest date
    WithDateMembers(us, dw);
    WithDateMembers(ws, du);
    var i :| 0 <= i < |us| && us[i].publishDate == dw;
    var j :| 0 <= j < |ws| && ws[j].publishDate == du;
    assert 0 < i ==> us[0].publishDate >= us[i].publishDate;
    assert 0 < j ==> ws[0].publishDate >= ws[j].publishDate;
    assert du == dw;
  }

  /** Removing a common head keeps the agreement on every date. */
  lemma TailsAgree(ws: seq<Video>, us: seq<Video>)
    requires ws != [] && us != [] && ws[0] == us[0]
    requires forall d :: WithDate(ws, d) == WithDate(us, d)
    ensures forall d :: WithDate(ws[1..], d) == WithDate(us[1..], d)
  {
    forall d ensures WithDate(ws[1..], d) == WithDate(us[1..], d) {
      var p := if ws[0].publishDate == d then [ws[0]] else [];
      assert WithDate(ws, d) == p + WithDate(ws[1..], d);
      assert WithDate(us, d) == p + WithDate(us[1..], d);
      assert WithDate(ws[1..], d) == WithDate(ws, d)[|p|..];
      assert WithDate(us[1..], d) == WithDate(us, d)[|p|..];
    }
  }

  /** Two newest-first sequences that agree on every date are equal. */
  lemma {:induction false} SortedAgree(ws: seq<Video>, us: seq<Video>)
    requires Sorted(ws) && Sorted(us)
    requires forall d :: WithDate(ws, d) == WithDate(us, d)
    ensures ws == us
    decreases |ws| + |us|
  {
    HeadLeadsItsDate(ws);
    HeadLeadsItsDate(us);
    if ws != [] && us != [] {
      var dw, du := ws[0].publishDate, us[0].publishDate;
      assert WithDate(ws, dw) == WithDate(us, dw);
      assert WithDate(ws, du) == WithDate(us, du);
      HeadsAgree(ws, us);
      TailsAgree(ws, us);
      assert Sorted(ws[1..]) && Sorted(us[1..]);
      SortedAgree(ws[1..], us[1..]);
      assert ws == [ws[0]] + ws[1..] && us == [us[0]] + us[1..];
    }
  }
}
