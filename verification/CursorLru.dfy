/** Which cursors the cache holds after any history of requests. */
module CursorLru {
  import opened Basics
  import opened Cursors

  /** The request asks for a picture the cache may hold. */
  predicate Counts(r: Request) {
    r.streaming && r.shape.Cacheable()
  }

  predicate Requested(reqs: seq<Request>, x: Shape) {
    exists i :: 0 <= i < |reqs| && Counts(reqs[i]) && reqs[i].shape == x
  }

  /** The distinct cursors requested after the last request for `x`; all of them if it was never requested. */
  function Since(reqs: seq<Request>, x: Shape): set<Shape> {
    if |reqs| == 0 then {}
    else
      var before, r := Since(reqs[..|reqs| - 1], x), reqs[|reqs| - 1];
      if !Counts(r) then before else if r.shape == x then {} else before + {r.shape}
  }

  /** `x` is one of the `n` most recently requested distinct cursors. */
  ghost predicate AmongMostRecent(reqs: seq<Request>, x: Shape, n: nat) {
    Requested(reqs, x) && |Since(reqs, x)| < n
  }

  ghost predicate TimesIncrease(reqs: seq<Request>) {
    forall i, j :: 0 <= i < j < |reqs| ==> reqs[i].now < reqs[j].now
  }

  /** The states a cursor with room for `n` pictures goes through when it serves `reqs`. */
  ghost predicate Behaviour(states: seq<State>, reqs: seq<Request>, n: nat) {
    && |states| == |reqs| + 1 && states[0] == INITIAL
    && forall i {:trigger reqs[i]} :: 0 <= i < |reqs| ==> Next(states[i], reqs[i], n, states[i + 1])
  }

  lemma RequestedNext(reqs: seq<Request>, r: Request, x: Shape)
    ensures Requested(reqs + [r], x) <==> Requested(reqs, x) || (Counts(r) && r.shape == x)
    ensures Since(reqs + [r], x) ==
            if !Counts(r) then Since(reqs, x) else if r.shape == x then {} else Since(reqs, x) + {r.shape}
  {
    var all := reqs + [r];
    assert all[..|reqs|] == reqs;
    if Requested(reqs, x) {
      var i :| 0 <= i < |reqs| && Counts(reqs[i]) && reqs[i].shape == x;
      assert all[i] == reqs[i];
    }
    assert all[|reqs|] == r;
  }

  /** A cursor requested after the last request for `x` is itself more recent than `x`. */
  lemma {:induction false} SinceIsTransitive(reqs: seq<Request>, x: Shape, y: Shape)
    requires y in Since(reqs, x) && Requested(reqs, x)
    ensures Requested(reqs, y) && y != x
    ensures Since(reqs, y) <= Since(reqs, x) - {y}
  {
    var before, r := reqs[..|reqs| - 1], reqs[|reqs| - 1];
    assert reqs == before + [r];
    RequestedNext(before, r, x);
    RequestedNext(before, r, y);
    if !Counts(r) || r.shape != y {
      SinceIsTransitive(before, x, y);
    } else if y in Since(before, x) {
      SinceIsTransitive(before, x, y);
    }
  }

  /** What ties the cache to the requests served so far. */
  ghost predicate Tracks(s: State, reqs: seq<Request>, n: nat) {
    && Coherent(s, n)
    && HoldsMostRecent(s.cache, reqs, n)
    && (|s.cache| < n ==> forall x :: Requested(reqs, x) ==> Holds(s.cache, x))
    && OrderedByUse(s.cache, reqs)
    && (forall k :: k in s.cache ==> |reqs| > 0 && s.cache[k].lastUsed <= reqs[|reqs| - 1].now)
  }

  ghost predicate HoldsMostRecent(cache: map<nat, CachedCursor>, reqs: seq<Request>, n: nat) {
    forall x :: Holds(cache, x) <==> AmongMostRecent(reqs, x, n)
  }

  ghost predicate OrderedByUse(cache: map<nat, CachedCursor>, reqs: seq<Request>) {
    forall j, k :: j in cache && k in cache && cache[j].shape in Since(reqs, cache[k].shape) ==>
      cache[j].lastUsed > cache[k].lastUsed
  }

  ghost function HeldShapes(cache: map<nat, CachedCursor>): set<Shape> {
    set k | k in cache :: cache[k].shape
  }

  lemma {:induction false} HeldShapesSize(cache: map<nat, CachedCursor>)
    requires forall j, k :: j in cache && k in cache && cache[j].shape == cache[k].shape ==> j == k
    ensures |HeldShapes(cache)| == |cache|
    decreases |cache|
  {
    if |cache| == 0 {
      assert HeldShapes(cache) == {};
    } else {
      var k :| k in cache;
      var rest := cache - {k};
      HeldShapesSize(rest);
      forall x | x in HeldShapes(cache)
        ensures x in HeldShapes(rest) + {cache[k].shape}
      {
        var j :| j in cache && cache[j].shape == x;
        assert j == k || (j in rest && rest[j].shape == x);
      }
      assert HeldShapes(cache) == HeldShapes(rest) + {cache[k].shape};
      assert |rest.Keys| == |cache.Keys - {k}|;
    }
  }

  /** Everything more recent than a held cursor is held too. */
  lemma MoreRecentAreHeld(s: State, reqs: seq<Request>, n: nat, k: nat)
    requires Tracks(s, reqs, n) && k in s.cache
    ensures Since(reqs, s.cache[k].shape) <= HeldShapes(s.cache) - {s.cache[k].shape}
  {
    var x := s.cache[k].shape;
    assert Holds(s.cache, x);
    forall y | y in Since(reqs, x)
      ensures y in HeldShapes(s.cache) && y != x
    {
      SinceIsTransitive(reqs, x, y);
      SmallerSet(Since(reqs, y), Since(reqs, x) - {y});
      SmallerSet(Since(reqs, x) - {y}, Since(reqs, x));
      assert AmongMostRecent(reqs, y, n);
      assert Holds(s.cache, y);
    }
  }

  /** Of two requested cursors, one is more recent than the other. */
  lemma {:induction false} SinceIsTotal(reqs: seq<Request>, x: Shape, y: Shape)
    requires Requested(reqs, x) && Requested(reqs, y) && x != y
    ensures x in Since(reqs, y) || y in Since(reqs, x)
  {
    var before, r := reqs[..|reqs| - 1], reqs[|reqs| - 1];
    assert reqs == before + [r];
    RequestedNext(before, r, x);
    RequestedNext(before, r, y);
    if !Counts(r) || (r.shape != x && r.shape != y) {
      SinceIsTotal(before, x, y);
    }
  }

  /** The cache after a request for `r.shape`: that cursor is the newest entry, the others are unchanged, and at most
      one entry, `gone`, is no longer there. */
  ghost predicate Renewed(
    before: map<nat, CachedCursor>, r: Request, n: nat, after: map<nat, CachedCursor>, newest: nat, gone: Option<nat>)
  {
    && newest in after && after[newest].shape == r.shape && after[newest].lastUsed == r.now
    && (forall k :: k in after && k != newest ==> k in before && after[k] == before[k])
    && (forall k :: k in before && before[k].shape != r.shape && gone != Some(k) ==> k in after && k != newest)
    && (forall k :: k in before && before[k].shape == r.shape ==> k == newest)
    && match gone
       case None => Holds(before, r.shape) || |before| < n
       case Some(v) => IsVictim(before, v) && !Holds(before, r.shape) && |before| == n && (v in after ==> v == newest)
  }

  lemma RoomForTheNewest(
    s: State, reqs: seq<Request>, r: Request, n: nat, t: State, newest: nat, gone: Option<nat>, k: nat)
    requires Tracks(s, reqs, n) && Counts(r) && Renewed(s.cache, r, n, t.cache, newest, gone)
    requires k in t.cache && k != newest
    ensures |Since(reqs, s.cache[k].shape) + {r.shape}| < n
  {
    var z, held := s.cache[k].shape, HeldShapes(s.cache);
    MoreRecentAreHeld(s, reqs, n, k);
    HeldShapesSize(s.cache);
    assert z in held && z != r.shape;
    if gone.Some? {
      var vs := s.cache[gone.value].shape;
      assert vs in held && vs != z && vs !in Since(reqs, z);
      SizeWithout(Since(reqs, z), held, z, vs, r.shape);
    } else {
      assert Holds(s.cache, r.shape) <==> r.shape in held;
      SizeWith(Since(reqs, z), held, z, r.shape);
    }
  }

  lemma SizeWith<T>(a: set<T>, held: set<T>, z: T, x: T)
    requires z in held && a <= held - {z} && x != z
    ensures |a + {x}| <= if x in held then |held| - 1 else |held|
  {
    SmallerSet(a, held - {z});
    if x in held {
      SmallerSet(a + {x}, held - {z});
    }
  }

  lemma SizeWithout<T>(a: set<T>, held: set<T>, z: T, v: T, x: T)
    requires z in held && v in held && v != z && a <= held - {z} && v !in a
    ensures |a + {x}| <= |held| - 1
  {
    SmallerSet(a, held - {z} - {v});
  }

  lemma VictimIsNoLongerRecent(s: State, reqs: seq<Request>, r: Request, n: nat, v: nat)
    requires Tracks(s, reqs, n) && |s.cache| == n && IsVictim(s.cache, v) && !Holds(s.cache, r.shape)
    ensures |Since(reqs, s.cache[v].shape) + {r.shape}| >= n
  {
    var vs, held := s.cache[v].shape, HeldShapes(s.cache);
    HeldShapesSize(s.cache);
    forall z | z in held - {vs}
      ensures z in Since(reqs, vs)
    {
      var k :| k in s.cache && s.cache[k].shape == z;
      assert Holds(s.cache, z) && Holds(s.cache, vs);
      SinceIsTotal(reqs, z, vs);
    }
    assert vs in held && r.shape !in held;
    assert |held - {vs} + {r.shape}| == n;
    SmallerSet(held - {vs} + {r.shape}, Since(reqs, vs) + {r.shape});
  }

  lemma HeldIffRecent(
    s: State, reqs: seq<Request>, r: Request, n: nat, t: State, newest: nat, gone: Option<nat>, z: Shape)
    requires Tracks(s, reqs, n) && Counts(r) && n > 0 && Renewed(s.cache, r, n, t.cache, newest, gone)
    ensures Holds(t.cache, z) <==> AmongMostRecent(reqs + [r], z, n)
  {
    RequestedNext(reqs, r, z);
    if z == r.shape {
      assert Holds(t.cache, z);
    } else {
      if Holds(t.cache, z) {
        var k :| k in t.cache && t.cache[k].shape == z;
        assert s.cache[k].shape == z;
        assert Holds(s.cache, z);
        RoomForTheNewest(s, reqs, r, n, t, newest, gone, k);
      }
      if AmongMostRecent(reqs + [r], z, n) {
        SmallerSet(Since(reqs, z), Since(reqs, z) + {r.shape});
        assert Holds(s.cache, z);
        var k :| k in s.cache && s.cache[k].shape == z;
        if gone == Some(k) {
          VictimIsNoLongerRecent(s, reqs, r, n, k);
        } else {
          assert t.cache[k].shape == z;
        }
      }
    }
  }

  lemma OthersAreOlder(s: State, reqs: seq<Request>, r: Request, n: nat, t: State, newest: nat, gone: Option<nat>)
    requires Tracks(s, reqs, n) && Renewed(s.cache, r, n, t.cache, newest, gone) && TimesIncrease(reqs + [r])
    requires forall j, k :: j in t.cache && k in t.cache && t.cache[j].shape == t.cache[k].shape ==> j == k
    ensures forall i :: i in t.cache && i != newest ==>
              i in s.cache && t.cache[i] == s.cache[i] && s.cache[i].lastUsed < r.now && t.cache[i].shape != r.shape
  {
    if |reqs| > 0 {
      assert (reqs + [r])[|reqs| - 1].now < (reqs + [r])[|reqs|].now;
    }
  }

  lemma FullStaysFull(
    s: State, reqs: seq<Request>, r: Request, n: nat, t: State, newest: nat, gone: Option<nat>, z: Shape)
    requires Tracks(s, reqs, n) && Counts(r) && Renewed(s.cache, r, n, t.cache, newest, gone)
    requires |t.cache| < n && |s.cache| <= |t.cache| && Requested(reqs + [r], z)
    ensures Holds(t.cache, z)
  {
    RequestedNext(reqs, r, z);
    if z == r.shape {
      assert t.cache[newest].shape == z;
    } else {
      assert Holds(s.cache, z);
      var k :| k in s.cache && s.cache[k].shape == z;
      assert t.cache[k].shape == z;
    }
  }

  lemma ServedHoldsMostRecent(
    s: State, reqs: seq<Request>, r: Request, n: nat, t: State, newest: nat, gone: Option<nat>)
    requires Tracks(s, reqs, n) && Counts(r) && n > 0 && Renewed(s.cache, r, n, t.cache, newest, gone)
    ensures HoldsMostRecent(t.cache, reqs + [r], n)
  {
    forall z
      ensures Holds(t.cache, z) <==> AmongMostRecent(reqs + [r], z, n)
    {
      HeldIffRecent(s, reqs, r, n, t, newest, gone, z);
    }
  }

  lemma ServedIsOrdered(s: State, reqs: seq<Request>, r: Request, t: State, newest: nat)
    requires Counts(r) && OrderedByUse(s.cache, reqs)
    requires newest in t.cache && t.cache[newest].shape == r.shape && t.cache[newest].lastUsed == r.now
    requires forall i :: i in t.cache && i != newest ==>
               i in s.cache && t.cache[i] == s.cache[i] && s.cache[i].lastUsed < r.now && t.cache[i].shape != r.shape
    ensures OrderedByUse(t.cache, reqs + [r])
  {
    forall j, k | j in t.cache && k in t.cache && t.cache[j].shape in Since(reqs + [r], t.cache[k].shape)
      ensures t.cache[j].lastUsed > t.cache[k].lastUsed
    {
      RequestedNext(reqs, r, t.cache[k].shape);
    }
  }

  lemma ServedTracks(s: State, reqs: seq<Request>, r: Request, n: nat, t: State, newest: nat, gone: Option<nat>)
    requires n > 0 && Tracks(s, reqs, n) && Counts(r) && Renewed(s.cache, r, n, t.cache, newest, gone) && Coherent(t, n)
    requires TimesIncrease(reqs + [r]) && |s.cache| <= |t.cache|
    ensures Tracks(t, reqs + [r], n)
  {
    ServedHoldsMostRecent(s, reqs, r, n, t, newest, gone);
    OthersAreOlder(s, reqs, r, n, t, newest, gone);
    ServedIsOrdered(s, reqs, r, t, newest);
    RequestedAreHeld(s, reqs, r, n, t, newest, gone);
  }

  lemma RequestedAreHeld(s: State, reqs: seq<Request>, r: Request, n: nat, t: State, newest: nat, gone: Option<nat>)
    requires n > 0 && Tracks(s, reqs, n) && Counts(r) && Renewed(s.cache, r, n, t.cache, newest, gone)
    requires |s.cache| <= |t.cache|
    ensures |t.cache| < n ==> forall z :: Requested(reqs + [r], z) ==> Holds(t.cache, z)
  {
    if |t.cache| < n {
      forall z | Requested(reqs + [r], z)
        ensures Holds(t.cache, z)
      {
        FullStaysFull(s, reqs, r, n, t, newest, gone, z);
      }
    }
  }

  lemma TouchServes(s: State, r: Request, n: nat, key: nat)
    requires key in s.cache && s.cache[key].shape == r.shape
    requires forall j, k :: j in s.cache && k in s.cache && s.cache[j].shape == s.cache[k].shape ==> j == k
    ensures var t := s.Touch(key, r.now);
            Renewed(s.cache, r, n, t.cache, key, None) && |t.cache| == |s.cache|
  {
  }

  lemma InsertServes(s: State, r: Request, n: nat, index: nat)
    requires Mirrored(s, n) && !Holds(s.cache, r.shape)
    requires (index == |s.cache| < n) || (|s.cache| == n && IsVictim(s.cache, index))
    ensures var t := Insert(s, index, r.shape, r.now);
            && Renewed(s.cache, r, n, t.cache, index, if index in s.cache then Some(index) else None)
            && |s.cache| <= |t.cache|
  {
  }

  /** Every step that shows a picture serves it in this sense, and uploads it exactly if it was not held. */
  lemma NextServes(s: State, r: Request, n: nat, t: State) returns (newest: nat, gone: Option<nat>)
    requires n > 0 && Coherent(s, n) && Counts(r) && Next(s, r, n, t)
    ensures Renewed(s.cache, r, n, t.cache, newest, gone) && |s.cache| <= |t.cache|
    ensures Uploads(t.wire) == Uploads(s.wire) + if Holds(s.cache, r.shape) then 0 else 1
  {
    newest, gone := PictureServes(WithType(s, ImageCursor), r, n, t);
  }

  lemma PictureServes(s: State, r: Request, n: nat, t: State) returns (newest: nat, gone: Option<nat>)
    requires n > 0 && Mirrored(s, n) && NextPicture(s, r.shape, r.now, n, t)
    ensures Renewed(s.cache, r, n, t.cache, newest, gone) && |s.cache| <= |t.cache|
    ensures Uploads(t.wire) == Uploads(s.wire) + if Holds(s.cache, r.shape) then 0 else 1
  {
    gone := None;
    if s.lastUsed.Some? && s.lastUsed.value in s.cache && s.cache[s.lastUsed.value].shape == r.shape {
      newest := s.lastUsed.value;
      TouchServes(s, r, n, newest);
      assert Holds(s.cache, r.shape);
    } else if Holds(s.cache, r.shape) {
      newest :| newest in s.cache && s.cache[newest].shape == r.shape
        && t == s.Touch(newest, r.now).Send(PointerCached(s.cache[newest].cacheId));
      TouchServes(s, r, n, newest);
      Sent(s.wire, PointerCached(s.cache[newest].cacheId));
    } else if |s.cache| < n {
      newest := |s.cache|;
      InsertServes(s, r, n, newest);
      InsertUploads(s, newest, r.shape, r.now);
    } else {
      newest :| IsVictim(s.cache, newest)
        && t == Insert(s.(cache := s.cache - {newest}), s.cache[newest].cacheId, r.shape, r.now);
      gone := Some(newest);
      ReplaceIsInsert(s, newest, r.shape, r.now);
      InsertServes(s, r, n, newest);
      InsertUploads(s, newest, r.shape, r.now);
    }
  }

  lemma InsertUploads(s: State, index: nat, shape: Shape, now: int)
    ensures Uploads(Insert(s, index, shape, now).wire) == Uploads(s.wire) + 1
  {
  }

  /** Other requests leave the cache alone and upload nothing. */
  lemma OthersUploadNothing(s: State, r: Request, n: nat, t: State)
    requires !Counts(r) && Next(s, r, n, t)
    ensures t.cache == s.cache && Uploads(t.wire) == Uploads(s.wire)
  {
    Sent(s.wire, PointerSystem(false));
  }

  lemma OthersLeaveTheCache(s: State, reqs: seq<Request>, r: Request, n: nat, t: State)
    requires n > 0 && Tracks(s, reqs, n) && !Counts(r) && Next(s, r, n, t) && TimesIncrease(reqs + [r])
    ensures Tracks(t, reqs + [r], n) && t.cache == s.cache && Uploads(t.wire) == Uploads(s.wire)
  {
    NextStaysCoherent(s, r, n, t);
    OthersUploadNothing(s, r, n, t);
    TracksUnchanged(s, reqs, r, n, t);
  }

  lemma TracksUnchanged(s: State, reqs: seq<Request>, r: Request, n: nat, t: State)
    requires Tracks(s, reqs, n) && !Counts(r) && Coherent(t, n) && t.cache == s.cache && TimesIncrease(reqs + [r])
    ensures Tracks(t, reqs + [r], n)
  {
    forall z
      ensures Requested(reqs + [r], z) == Requested(reqs, z) && Since(reqs + [r], z) == Since(reqs, z)
    {
      RequestedNext(reqs, r, z);
    }
    if |reqs| > 0 {
      assert (reqs + [r])[|reqs| - 1].now < (reqs + [r])[|reqs|].now;
    }
  }

  lemma {:induction false} CacheTracksRequests(states: seq<State>, reqs: seq<Request>, n: nat)
    requires n > 0 && Behaviour(states, reqs, n) && TimesIncrease(reqs)
    ensures Tracks(states[|reqs|], reqs, n)
  {
    if |reqs| > 0 {
      var before, r := reqs[..|reqs| - 1], reqs[|reqs| - 1];
      var s, t := states[|before|], states[|reqs|];
      assert reqs == before + [r];
      CacheTracksRequests(states[..|reqs|], before, n);
      if Counts(r) {
        var newest, gone := NextServes(s, r, n, t);
        NextStaysCoherent(s, r, n, t);
        ServedTracks(s, before, r, n, t, newest, gone);
      } else {
        OthersLeaveTheCache(s, before, r, n, t);
      }
    }
  }

  /** With increasing timestamps, the cache holds exactly the most recently requested distinct cursors, as many as it
      has room for. */
  lemma CacheHoldsTheMostRecent(states: seq<State>, reqs: seq<Request>, n: nat)
    requires n > 0 && Behaviour(states, reqs, n) && TimesIncrease(reqs)
    ensures forall x :: Holds(states[|reqs|].cache, x) <==> AmongMostRecent(reqs, x, n)
    ensures |states[|reqs|].cache| <= n
    ensures |states[|reqs|].cache| < n ==> forall x :: Requested(reqs, x) ==> Holds(states[|reqs|].cache, x)
  {
    CacheTracksRequests(states, reqs, n);
  }

  /** How many pictures a step uploads. */
  lemma UploadsExactlyMisses(s: State, reqs: seq<Request>, r: Request, n: nat, t: State)
    requires n > 0 && Tracks(s, reqs, n) && Next(s, r, n, t) && TimesIncrease(reqs + [r])
    ensures Uploads(t.wire) == Uploads(s.wire) + if Counts(r) && !AmongMostRecent(reqs, r.shape, n) then 1 else 0
  {
    if Counts(r) {
      var _, _ := NextServes(s, r, n, t);
    } else {
      OthersLeaveTheCache(s, reqs, r, n, t);
    }
  }

  /** A larger cache holds all that a smaller one holds, and never uploads more pictures. */
  lemma {:induction false} LargerCacheIsNoWorse(
    small: seq<State>, large: seq<State>, reqs: seq<Request>, m: nat, n: nat)
    requires 0 < m <= n && TimesIncrease(reqs)
    requires Behaviour(small, reqs, m) && Behaviour(large, reqs, n)
    ensures forall x :: Holds(small[|reqs|].cache, x) ==> Holds(large[|reqs|].cache, x)
    ensures Uploads(large[|reqs|].wire) <= Uploads(small[|reqs|].wire)
  {
    CacheHoldsTheMostRecent(small, reqs, m);
    CacheHoldsTheMostRecent(large, reqs, n);
    if |reqs| > 0 {
      var before, r := reqs[..|reqs| - 1], reqs[|reqs| - 1];
      assert reqs == before + [r];
      LargerCacheIsNoWorse(small[..|reqs|], large[..|reqs|], before, m, n);
      UploadsOverHistory(small, reqs, m);
      UploadsOverHistory(large, reqs, n);
    }
  }

  lemma UploadsOverHistory(states: seq<State>, reqs: seq<Request>, n: nat)
    requires n > 0 && |reqs| > 0 && Behaviour(states, reqs, n) && TimesIncrease(reqs)
    ensures var before, r := reqs[..|reqs| - 1], reqs[|reqs| - 1];
            Uploads(states[|reqs|].wire) == Uploads(states[|before|].wire)
              + if Counts(r) && !AmongMostRecent(before, r.shape, n) then 1 else 0
  {
    var before, r := reqs[..|reqs| - 1], reqs[|reqs| - 1];
    assert reqs == before + [r];
    CacheTracksRequests(states[..|reqs|], before, n);
    UploadsExactlyMisses(states[|before|], before, r, n, states[|reqs|]);
  }

  lemma AgreesInitially(states: seq<State>, reqs: seq<Request>, n: nat)
    requires Behaviour(states, reqs, n)
    ensures Coherent(states[0], n)
  {
  }

  lemma AgreesNext(states: seq<State>, reqs: seq<Request>, n: nat, i: nat)
    requires n > 0 && Behaviour(states, reqs, n) && i < |reqs| && Coherent(states[i], n)
    ensures Coherent(states[i + 1], n) && Cursors.Served(states[i], reqs[i], states[i + 1])
  {
    NextStaysCoherent(states[i], reqs[i], n, states[i + 1]);
  }

  /** In every behaviour, with whatever clock, client and server agree after every update. */
  lemma {:induction false} ClientAlwaysAgrees(states: seq<State>, reqs: seq<Request>, n: nat, i: nat)
    requires n > 0 && Behaviour(states, reqs, n) && i <= |reqs|
    ensures Coherent(states[i], n)
    ensures i > 0 ==> Cursors.Served(states[i - 1], reqs[i - 1], states[i])
  {
    if i == 0 {
      AgreesInitially(states, reqs, n);
    } else {
      ClientAlwaysAgrees(states, reqs, n, i - 1);
      AgreesNext(states, reqs, n, i - 1);
    }
  }
}
