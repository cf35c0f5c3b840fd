/** Invoke-ID allocation (client.go): a wrapping 8-bit counter that skips IDs
    in use, and how long an ID stays unused after its allocation. */
module InvokeIds {
  import opened Octets

  /** uint8 increment, which wraps. */
  function Succ(id: uint8): uint8 { if id == 255 then 0 else id + 1 }

  /** The allocation loop, with k turns left: the ID found, and the counter. */
  function Probe(next: uint8, used: set<uint8>, k: nat): (Option<uint8>, uint8)
    decreases k
  {
    if k == 0 then (None, next)
    else if next !in used then (Some(next), Succ(next))
    else Probe(Succ(next), used, k - 1)
  }

  /** The n IDs from next on, wrapping around. */
  function Window(next: uint8, n: nat): set<uint8>
    decreases n
  {
    if n == 0 then {} else {next} + Window(Succ(next), n - 1)
  }

  lemma {:induction false} InWindow(next: uint8, n: nat, id: uint8)
    requires n <= 256
    ensures id in Window(next, n) <==> (id - next) % 256 < n
    decreases n
  {
    if n > 0 {
      InWindow(Succ(next), n - 1, id);
      Distance(next, id);
      hide Succ;
    }
  }

  lemma Distance(next: uint8, id: uint8)
    ensures (id - Succ(next)) % 256 == if id == next then 255 else (id - next) % 256 - 1
  {
  }

  lemma SuccStep(next: uint8, k: nat)
    requires k > 0
    ensures (Succ(next) + (k - 1)) % 256 == (next + k) % 256
  {
    if next == 255 {
      assert next + k == 256 + (Succ(next) + (k - 1));
    }
  }

  /** Where the loop stops: the IDs skipped on the way are all in use. */
  lemma {:induction false} ProbeFinds(next: uint8, used: set<uint8>, k: nat)
    requires k <= 256
    ensures Probe(next, used, k).0.None? <==> Window(next, k) <= used
    ensures Probe(next, used, k).0.None? ==> Probe(next, used, k).1 == (next + k) % 256
    ensures Probe(next, used, k).0.Some? ==>
      Probe(next, used, k).0.value !in used && Probe(next, used, k).1 == Succ(Probe(next, used, k).0.value)
    decreases k
  {
    if k > 0 && next in used {
      hide Succ;
      assert (Succ(next) + (k - 1)) % 256 == (next + k) % 256 by { SuccStep(next, k); }
      ProbeFinds(Succ(next), used, k - 1);
      assert Window(next, k) == {next} + Window(Succ(next), k - 1);
    }
  }

  /** Allocation fails exactly when all 256 IDs are in use, and then leaves the
      counter where it was. */
  lemma AllocationFails(next: uint8, used: set<uint8>)
    ensures Probe(next, used, 256).0.None? <==> forall id: uint8 :: id in used
    ensures Probe(next, used, 256).0.None? ==> Probe(next, used, 256).1 == next
  {
    hide Window, Probe;
    ProbeFinds(next, used, 256);
    forall id: uint8 ensures id in Window(next, 256) {
      InWindow(next, 256, id);
    }
  }

  // ----- reuse distance

  /** Book-keeping since x was allocated with the IDs in P otherwise pending: k
      allocations succeeded since, and the u IDs from next up to x were not yet
      passed; an ID in use among these was already pending at the start, and
      every ID passed was allocated since or pending at the start. */
  predicate Passing(next: uint8, used: set<uint8>, x: uint8, P: set<uint8>, k: nat, u: nat) {
    && u <= 255 && x == (next + u) % 256
    && used * Window(next, u) <= P
    && 255 - u + |P * Window(next, u)| <= k + |P|
  }

  lemma WithoutOne<T>(P: set<T>, w: set<T>, x: T)
    requires x !in w
    ensures |P * w| == |P * ({x} + w)| - (if x in P then 1 else 0)
  {
    if x in P {
      assert P * ({x} + w) == P * w + {x};
    } else {
      assert P * ({x} + w) == P * w;
    }
  }

  /** Passing the ID next: it is skipped if in use, and allocated otherwise. */
  lemma PassOne(next: uint8, used: set<uint8>, x: uint8, P: set<uint8>, k: nat, u: nat)
    requires Passing(next, used, x, P, k, u) && u > 0
    ensures next in used ==> Passing(Succ(next), used, x, P, k, u - 1)
    ensures next !in used ==> next != x && Passing(Succ(next), used + {next}, x, P, k + 1, u - 1)
  {
    var w := Window(Succ(next), u - 1);
    assert Window(next, u) == {next} + w;
    assert next !in w by { InWindow(Succ(next), u - 1, next); }
    assert x == (Succ(next) + (u - 1)) % 256 by { SuccStep(next, u); }
    hide Window, Succ;
    WithoutOne(P, w, next);
    assert (used + {next}) * w == used * w;
  }

  /** One allocation. Either the goal is reached, or it returned another ID than
      x and the book-keeping goes on. */
  lemma {:induction false} ProbePasses(next: uint8, used: set<uint8>, x: uint8, P: set<uint8>, k: nat, u: nat,
                                       fuel: nat)
    returns (v: nat)
    requires Passing(next, used, x, P, k, u) && u < fuel
    ensures var (found, after) := Probe(next, used, fuel);
            k + |P| >= 255
            || (found.Some? && found.value != x && Passing(after, used + {found.value}, x, P, k + 1, v))
    decreases fuel
  {
    v := 0;
    if u == 0 {
      assert k + |P| >= 255;
    } else {
      PassOne(next, used, x, P, k, u);
      hide Passing, Succ;
      if next in used {
        v := ProbePasses(Succ(next), used, x, P, k, u - 1, fuel - 1);
      } else {
        v := u - 1;
      }
    }
  }

  lemma JustAllocated(used: set<uint8>, x: uint8)
    ensures Passing(Succ(x), used, x, used - {x}, 0, 255)
  {
    hide Window;
    var P, w := used - {x}, Window(Succ(x), 255);
    InWindow(Succ(x), 255, x);
    assert P * w <= P;
    Subset(P * w, P);
  }

  lemma Subset<T>(a: set<T>, b: set<T>)
    requires a <= b
    ensures |a| <= |b|
  {
    assert b == a + (b - a);
  }
}
