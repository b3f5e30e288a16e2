/** Which pool the accept loop posts to, and when it doubles the pools
    (HttpServer.c:87-117). */
module HandoffChoice {
  import opened Handoff

  /** The load test of HttpServer.c:95 without its division: the descriptors have
      reached half of the threads, rounded down. */
  predicate Loaded(n: nat, size: nat, maxDescriptor: nat) {
    2 * maxDescriptor + 1 >= n * size
  }

  /** The pools double exactly when the test passes and there are fewer than 16. */
  lemma GrownExactly(n: nat, size: nat, maxDescriptor: nat)
    ensures Grown(n, size, maxDescriptor)
         == if Loaded(n, size, maxDescriptor) && size < 16 then 2 * size else size
  {
  }

  /** Where the index goes: one further as long as the test fails, and after a passed
      test to a place that does not depend on where it was. */
  lemma NextPoolExactly(n: nat, size: nat, maxDescriptor: nat, idxPool: nat)
    requires idxPool < size
    ensures NextPool(n, size, maxDescriptor, idxPool)
         == if !Loaded(n, size, maxDescriptor) then (if idxPool + 1 == size then 0 else idxPool + 1)
            else if size >= 16 then 1
            else if n % 2 == 0 then 1
            else if size == 1 then 0
            else size + 1
  {
    if !Loaded(n, size, maxDescriptor) {
      StepInRing(idxPool, size);
    } else if size >= 16 {
      Remainder(n * size + 1, n, size, 1);
    } else {
      GrownChoice(n, size);
    }
  }

  lemma StepInRing(i: nat, size: nat)
    requires i < size
    ensures (i + 1) % size == if i + 1 == size then 0 else i + 1
  {
  }

  lemma GrownChoice(n: nat, size: nat)
    requires size > 0
    ensures (n * size + 1) % (size + size)
         == if n % 2 == 0 then 1 else if size == 1 then 0 else size + 1
  {
    var m := n / 2;
    if n % 2 == 0 {
      Halves(m, size);
      Remainder(n * size + 1, m, size + size, 1);
    } else if size > 1 {
      Halves(m, size);
      Remainder(n * size + 1, m, size + size, size + 1);
    }
  }

  lemma Halves(m: nat, size: nat)
    ensures 2 * m * size == m * (size + size)
    ensures (2 * m + 1) * size == m * (size + size) + size
  {
  }

  lemma {:induction false} Monotone(a: nat, b: nat, d: nat)
    requires a < b
    ensures a * d + d <= b * d
    decreases b - a
  {
    assert (b - 1) * d + d == b * d;
    if a == b - 1 {
    } else {
      Monotone(a, b - 1, d);
    }
  }

  lemma Remainder(x: nat, q: nat, d: nat, r: nat)
    requires r < d && x == q * d + r
    ensures x % d == r
  {
    var q' := x / d;
    assert x == q' * d + x % d;
    if q' < q {
      Monotone(q', q, d);
    } else if q < q' {
      Monotone(q, q', d);
    }
  }

  // The order of the posts.

  /** The mailboxes to which the posts of a run go. */
  ghost function Posts(n: nat, s: State, steps: seq<Step>): seq<nat>
    requires Shaped(s, n) && Runs(n, s, steps)
    decreases |steps|
  {
    if steps == [] then []
    else
      NextKeepsShape(n, s, steps[0]);
      (if steps[0].MPost? then [s.idxPool] else []) + Posts(n, Next(n, s, steps[0]), steps[1..])
  }

  /** The load test passes in no choice of the run, or in every one. */
  ghost predicate EachTest(n: nat, s: State, steps: seq<Step>, passes: bool)
    requires Shaped(s, n) && Runs(n, s, steps)
    decreases |steps|
  {
    steps == [] ||
    ((steps[0].MChoose? ==> Loaded(n, s.s, s.maxDescriptor) == passes)
     && (NextKeepsShape(n, s, steps[0]); EachTest(n, Next(n, s, steps[0]), steps[1..], passes)))
  }

  /** The mailbox of the next post. */
  function FirstPost(s: State): nat {
    if s.main.Choosing? then (if s.idxPool + 1 == s.s then 0 else s.idxPool + 1) else s.idxPool
  }

  function Wrapped(i: nat, size: nat): nat {
    if i >= size then i - size else i
  }

  /** `posts` goes around a ring of `size` mailboxes, from `first` on. */
  predicate Rotates(posts: seq<nat>, first: nat, size: nat) {
    posts == [] ||
    (posts[0] == first && Rotates(posts[1..], if first + 1 == size then 0 else first + 1, size))
  }

  lemma ChoiceStep(n: nat, s: State)
    requires Shaped(s, n) && s.main == Choosing && !Loaded(n, s.s, s.maxDescriptor)
    ensures Shaped(Next(n, s, MChoose), n)
    ensures var s' := Next(n, s, MChoose); s'.s == s.s && s'.main == Accepting && s'.idxPool == FirstPost(s)
  {
    NextKeepsShape(n, s, MChoose);
    NextPoolExactly(n, s.s, s.maxDescriptor, s.idxPool);
    GrownExactly(n, s.s, s.maxDescriptor);
  }

  /** While no choice passes the load test, the posts go around all pools, one after
      the other. */
  lemma {:induction false} PostsRotate(n: nat, s: State, steps: seq<Step>)
    requires Shaped(s, n) && Runs(n, s, steps) && EachTest(n, s, steps, false)
    ensures Rotates(Posts(n, s, steps), FirstPost(s), s.s)
    decreases |steps|
  {
    if steps == [] {
    } else {
      FirstStep(n, s, steps);
      var s' := Next(n, s, steps[0]);
      PostsRotate(n, s', steps[1..]);
      var later := Posts(n, s', steps[1..]);
      if steps[0].MPost? {
        assert Posts(n, s, steps) == [s.idxPool] + later;
        assert ([s.idxPool] + later)[1..] == later;
      } else {
        assert Posts(n, s, steps) == [] + later == later;
        if steps[0].MChoose? {
          ChoiceStep(n, s);
        }
      }
    }
  }

  /** The k-th post after the first is k mailboxes further. */
  lemma {:induction false} RotatesTo(posts: seq<nat>, first: nat, size: nat, k: nat)
    requires Rotates(posts, first, size) && first < size && k < |posts| && k <= size
    ensures posts[k] == Wrapped(first + k, size) < size
    decreases k
  {
    if k == 0 {
    } else {
      RotatesTo(posts[1..], if first + 1 == size then 0 else first + 1, size, k - 1);
    }
  }

  lemma {:induction false} RotatesFrom(posts: seq<nat>, first: nat, size: nat, m: nat)
    requires Rotates(posts, first, size) && first < size && m < |posts|
    ensures posts[m] < size && Rotates(posts[m..], posts[m], size)
    decreases m
  {
    if m == 0 {
      assert posts[0..] == posts;
    } else {
      RotatesFrom(posts[1..], if first + 1 == size then 0 else first + 1, size, m - 1);
      assert posts[1..][m - 1..] == posts[m..];
    }
  }

  lemma OnceAround(k: nat, size: nat)
    requires size > 0
    ensures (size + k) % size == k % size
  {
    var q := k / size;
    assert k == q * size + k % size;
    assert (q + 1) * size == q * size + size;
    Remainder(size + k, q + 1, size, k % size);
  }

  /** And in general the k-th post goes to the mailbox k further, modulo their number. */
  lemma {:induction false} RotatesAt(posts: seq<nat>, first: nat, size: nat, k: nat)
    requires Rotates(posts, first, size) && first < size && k < |posts|
    ensures posts[k] == (first + k) % size
    decreases k
  {
    if k == 0 {
      Remainder(first, 0, size, first);
    } else {
      RotatesAt(posts[1..], if first + 1 == size then 0 else first + 1, size, k - 1);
      if first + 1 == size {
        OnceAround(k - 1, size);
      }
    }
  }

  /** From the start of the server on, as long as no choice passes the load test, the
      k-th connection is posted to pool k modulo the number of pools. */
  lemma PostsFromStart(n: nat, size: nat, steps: seq<Step>, k: nat)
    requires n > 0 && size > 0 && Runs(n, Init(n, size), steps) && EachTest(n, Init(n, size), steps, false)
    requires k < |Posts(n, Init(n, size), steps)|
    ensures Posts(n, Init(n, size), steps)[k] == k % size
  {
    PostsRotate(n, Init(n, size), steps);
    RotatesAt(Posts(n, Init(n, size), steps), 0, size, k);
  }

  /** In any state: the k-th next post goes to the mailbox k after the next one. */
  lemma NextPosts(n: nat, s: State, steps: seq<Step>, k: nat)
    requires Shaped(s, n) && Runs(n, s, steps) && EachTest(n, s, steps, false)
    requires k < |Posts(n, s, steps)|
    ensures Posts(n, s, steps)[k] == (FirstPost(s) + k) % s.s
  {
    PostsRotate(n, s, steps);
    RotatesAt(Posts(n, s, steps), FirstPost(s), s.s, k);
  }

  lemma OneRound(posts: seq<nat>, first: nat, size: nat, p: nat)
    requires Rotates(posts, first, size) && first < size <= |posts| && p < size
    ensures exists k | 0 <= k < size :: posts[k] == p
    ensures forall k, l | 0 <= k < l < size :: posts[k] != posts[l]
  {
    var k := if p >= first then p - first else p + size - first;
    RotatesTo(posts, first, size, k);
    assert posts[k] == p;
    forall k, l | 0 <= k < l < size
      ensures posts[k] != posts[l]
    {
      RotatesTo(posts, first, size, k);
      RotatesTo(posts, first, size, l);
    }
  }

  /** So any s consecutive posts reach every mailbox, and none of them twice. */
  lemma EveryMailboxOnce(n: nat, s: State, steps: seq<Step>, m: nat, p: nat)
    requires Shaped(s, n) && Runs(n, s, steps) && EachTest(n, s, steps, false)
    requires m + s.s <= |Posts(n, s, steps)| && p < s.s
    ensures var round := Posts(n, s, steps)[m..m + s.s];
            && (exists k | 0 <= k < s.s :: round[k] == p)
            && (forall k, l | 0 <= k < l < s.s :: round[k] != round[l])
  {
    var posts := Posts(n, s, steps);
    PostsRotate(n, s, steps);
    RotatesFrom(posts, FirstPost(s), s.s, m);
    OneRound(posts[m..], posts[m], s.s, p);
    var k :| 0 <= k < s.s && posts[m..][k] == p;
    assert posts[m..m + s.s] == posts[m..][..s.s];
    assert posts[m..m + s.s][k] == p;
  }

  /** With 16 pools or more and the load test passed in every choice, the accept loop
      uses the second pool alone. */
  lemma {:induction false} LoadedUsesOnePool(n: nat, s: State, steps: seq<Step>)
    requires Shaped(s, n) && Runs(n, s, steps) && EachTest(n, s, steps, true)
    requires s.s >= 16 && (s.main.Choosing? || s.idxPool == 1)
    ensures forall k | 0 <= k < |Posts(n, s, steps)| :: Posts(n, s, steps)[k] == 1
    decreases |steps|
  {
    if steps == [] {
    } else {
      FirstStep(n, s, steps);
      if steps[0].MChoose? {
        NextPoolExactly(n, s.s, s.maxDescriptor, s.idxPool);
        GrownExactly(n, s.s, s.maxDescriptor);
      }
      LoadedUsesOnePool(n, Next(n, s, steps[0]), steps[1..]);
    }
  }

  // How often the pools double.

  ghost function Doublings(n: nat, s: State, steps: seq<Step>): nat
    requires Shaped(s, n) && Runs(n, s, steps)
    decreases |steps|
  {
    if steps == [] then 0
    else
      NextKeepsShape(n, s, steps[0]);
      (if steps[0].MChoose? && Loaded(n, s.s, s.maxDescriptor) && s.s < 16 then 1 else 0)
      + Doublings(n, Next(n, s, steps[0]), steps[1..])
  }

  function Pow2(k: nat): (r: nat)
    ensures r > 0
  {
    if k == 0 then 1 else 2 * Pow2(k - 1)
  }

  lemma {:induction false} DoublingsFrom(n: nat, s: State, steps: seq<Step>)
    requires Shaped(s, n) && Runs(n, s, steps)
    ensures After(n, s, steps).s == s.s * Pow2(Doublings(n, s, steps))
    decreases |steps|
  {
    if steps == [] {
    } else {
      FirstStep(n, s, steps);
      var s' := Next(n, s, steps[0]);
      DoublingsFrom(n, s', steps[1..]);
      if steps[0].MChoose? {
        GrownExactly(n, s.s, s.maxDescriptor);
        Doubled(s.s, Doublings(n, s', steps[1..]));
      }
    }
  }

  lemma Doubled(size: nat, k: nat)
    ensures 2 * size * Pow2(k) == size * Pow2(k + 1)
  {
  }

  /** Over every run the pools have doubled exactly in the choices in which the
      descriptors had reached half of the threads and there were fewer than 16 pools. */
  lemma PoolsDoubleExactly(n: nat, size: nat, steps: seq<Step>)
    requires n > 0 && size > 0 && Runs(n, Init(n, size), steps)
    ensures After(n, Init(n, size), steps).s == size * Pow2(Doublings(n, Init(n, size), steps))
  {
    DoublingsFrom(n, Init(n, size), steps);
  }
}
