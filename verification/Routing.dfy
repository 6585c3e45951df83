/** Dealing tasks to `n` workers by key: what is posted for one worker, and in which order. */
module Routing {
  import opened Machine

  /** The posted tasks meant for worker `w`, in the order they were posted. */
  function Routed<T>(posted: seq<T>, key: T -> uint64, w: nat, n: nat): seq<T>
    requires n > 0
  {
    if posted == [] then []
    else (if key(posted[0]) % n == w then [posted[0]] else []) + Routed(posted[1..], key, w, n)
  }

  function WithKey<T>(tasks: seq<T>, key: T -> uint64, k: uint64): seq<T> {
    if tasks == [] then []
    else (if key(tasks[0]) == k then [tasks[0]] else []) + WithKey(tasks[1..], key, k)
  }

  lemma {:induction false} RoutedAppend<T>(posted: seq<T>, key: T -> uint64, task: T, w: nat, n: nat)
    requires n > 0
    ensures Routed(posted + [task], key, w, n) == Routed(posted, key, w, n) + if key(task) % n == w then [task] else []
  {
    if posted != [] {
      assert (posted + [task])[1..] == posted[1..] + [task];
      RoutedAppend(posted[1..], key, task, w, n);
    } else {
      assert posted + [task] == [task] && [task][1..] == [];
    }
  }

  lemma {:induction false} RoutedPosted<T>(posted: seq<T>, key: T -> uint64, w: nat, n: nat)
    requires n > 0
    ensures forall task <- Routed(posted, key, w, n) :: task in posted && key(task) % n == w
  {
    if posted != [] {
      RoutedPosted(posted[1..], key, w, n);
    }
  }

  /** All tasks with one key are on one worker, in the order they were posted. */
  lemma {:induction false} WithKeyOfRouted<T>(posted: seq<T>, key: T -> uint64, k: uint64, n: nat)
    requires n > 0
    ensures WithKey(Routed(posted, key, k % n, n), key, k) == WithKey(posted, key, k)
  {
    if posted != [] {
      WithKeyOfRouted(posted[1..], key, k, n);
      var rest := Routed(posted[1..], key, k % n, n);
      if key(posted[0]) % n == k % n {
        assert ([posted[0]] + rest)[1..] == rest;
      } else {
        assert Routed(posted, key, k % n, n) == rest;
      }
    }
  }
}
