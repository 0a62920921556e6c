/** Which pointer PDUs are sent, in terms of what the client has and shows. */
module CursorPdus {
  import opened Basics
  import opened Geometry
  import opened Cursors
  import opened CursorLru

  predicate Small(shape: Shape) {
    shape.image.Image? && shape.image.width < 96 && shape.image.height < 96
  }

  predicate Large(shape: Shape) {
    && shape.image.Image? && (shape.image.width >= 96 || shape.image.height >= 96)
    && shape.image.width <= 384 && shape.image.height <= 384
  }

  /** Every picture was sent by the PDU for its size. */
  ghost predicate SentBySize(wire: seq<PointerPdu>) {
    forall i :: 0 <= i < |wire| ==>
      (wire[i].PointerNew? ==> Small(wire[i].shape)) && (wire[i].PointerLarge? ==> Large(wire[i].shape))
  }

  lemma PictureSendsBySize(s: State, shape: Shape, now: int, n: nat, t: State)
    requires SentBySize(s.wire) && shape.Cacheable() && NextPicture(s, shape, now, n, t)
    ensures SentBySize(t.wire)
  {
  }

  lemma NextSendsBySize(s: State, r: Request, n: nat, t: State)
    requires SentBySize(s.wire) && Next(s, r, n, t)
    ensures SentBySize(t.wire)
  {
    if r.streaming && r.shape.Cacheable() {
      PictureSendsBySize(WithType(s, ImageCursor), r.shape, r.now, n, t);
    }
  }

  /** In every behaviour, pictures below 96 by 96 go as new pointers, and those of 96 in some dimension and at most 384
      in both as large ones. */
  lemma {:induction false} PicturesAreSentBySize(states: seq<State>, reqs: seq<Request>, n: nat, i: nat)
    requires Behaviour(states, reqs, n) && i <= |reqs|
    ensures SentBySize(states[i].wire)
  {
    if i > 0 {
      PicturesAreSentBySize(states, reqs, n, i - 1);
      NextSendsBySize(states[i - 1], reqs[i - 1], n, states[i]);
    }
  }

  /** The PDU that brings a picture. */
  function PictureFor(shape: Shape, slot: nat): PointerPdu
    requires shape.image.Image?
  {
    if shape.image.width >= 96 || shape.image.height >= 96 then PointerLarge(slot, shape) else PointerNew(slot, shape)
  }

  /** What a request makes the server send to a client in this state: nothing if there is nothing to show or it is shown
      already, the default pointer for a picture too large, a slot for a picture the client has, and otherwise the
      picture for a slot and that slot. */
  ghost predicate SentFor(c: Client, r: Request, n: nat, sent: seq<PointerPdu>) {
    if !r.streaming || r.shape.image.NoImage? then sent == []
    else if r.shape.image.width > 384 || r.shape.image.height > 384 then
      sent == if c.shown == Default then [] else [PointerSystem(false)]
    else if c.shown == Picture(r.shape) then sent == []
    else if r.shape in c.slots.Values then
      |sent| == 1 && sent[0].PointerCached? && sent[0].cacheIndex in c.slots && c.slots[sent[0].cacheIndex] == r.shape
    else
      && |sent| == 2 && sent[1].PointerCached?
      && var slot := sent[1].cacheIndex;
         && sent[0] == PictureFor(r.shape, slot)
         && if |c.slots| < n then slot == |c.slots| else slot in c.slots
  }

  lemma HeldBothSides(s: State, n: nat, shape: Shape)
    requires Coherent(s, n)
    ensures Holds(s.cache, shape) <==> shape in s.Peer().slots.Values
    ensures |s.Peer().slots| == |s.cache|
  {
    var slots := s.Peer().slots;
    if Holds(s.cache, shape) {
      var k :| k in s.cache && s.cache[k].shape == shape;
      assert slots[k] == shape;
    }
    assert |slots.Keys| == |slots| && |s.cache.Keys| == |s.cache|;
  }

  lemma WhatIsSent(s: State, r: Request, n: nat, t: State)
    requires n > 0 && Coherent(s, n) && Next(s, r, n, t)
    ensures s.wire <= t.wire && SentFor(s.Peer(), r, n, t.wire[|s.wire|..])
  {
    HeldBothSides(s, n, r.shape);
    if r.streaming && r.shape.image.Image? && !r.shape.TooLarge() {
      PictureSends(s, r, n, t);
    }
  }

  lemma PictureSends(s: State, r: Request, n: nat, t: State)
    requires n > 0 && Coherent(s, n) && r.streaming && r.shape.Cacheable()
    requires NextPicture(WithType(s, ImageCursor), r.shape, r.now, n, t)
    requires Holds(s.cache, r.shape) <==> r.shape in s.Peer().slots.Values
    requires |s.Peer().slots| == |s.cache|
    ensures s.wire <= t.wire && SentFor(s.Peer(), r, n, t.wire[|s.wire|..])
  {
    var typed := WithType(s, ImageCursor);
    if s.lastUsed.Some? && s.cache[s.lastUsed.value].shape == r.shape {
      assert t.wire == s.wire;
    } else if Holds(s.cache, r.shape) {
      var k :| k in s.cache && s.cache[k].shape == r.shape
        && t == typed.Touch(k, r.now).Send(PointerCached(s.cache[k].cacheId));
      HeldSends(s, r, n, t.wire, k);
    } else {
      NewSends(s, r, n, t);
    }
  }

  lemma HeldSends(s: State, r: Request, n: nat, wire: seq<PointerPdu>, k: nat)
    requires Coherent(s, n) && r.streaming && r.shape.Cacheable() && k in s.cache && s.cache[k].shape == r.shape
    requires s.lastUsed.Some? ==> s.cache[s.lastUsed.value].shape != r.shape
    requires wire == s.wire + [PointerCached(s.cache[k].cacheId)]
    ensures s.wire <= wire && SentFor(s.Peer(), r, n, wire[|s.wire|..])
  {
    assert wire[|s.wire|..] == [PointerCached(k)];
    assert s.Peer().slots[k] == r.shape;
  }

  lemma NewSends(s: State, r: Request, n: nat, t: State)
    requires n > 0 && Coherent(s, n) && r.streaming && r.shape.Cacheable() && !Holds(s.cache, r.shape)
    requires r.shape !in s.Peer().slots.Values && |s.Peer().slots| == |s.cache|
    requires NextPicture(WithType(s, ImageCursor), r.shape, r.now, n, t)
    ensures s.wire <= t.wire && SentFor(s.Peer(), r, n, t.wire[|s.wire|..])
  {
    if |s.cache| < n {
      NewPicture(s, r, n, t.wire, |s.cache|);
    } else {
      var v :| IsVictim(s.cache, v)
        && t == Insert(WithType(s, ImageCursor).(cache := s.cache - {v}), s.cache[v].cacheId, r.shape, r.now);
      NewPicture(s, r, n, t.wire, v);
    }
  }

  lemma NewPicture(s: State, r: Request, n: nat, wire: seq<PointerPdu>, slot: nat)
    requires Coherent(s, n) && r.streaming && r.shape.Cacheable()
    requires !Holds(s.cache, r.shape) && r.shape !in s.Peer().slots.Values && |s.Peer().slots| == |s.cache|
    requires if |s.cache| < n then slot == |s.cache| else slot in s.cache
    requires wire == s.wire + [Upload(slot, r.shape)] + [PointerCached(slot)]
    ensures s.wire <= wire && SentFor(s.Peer(), r, n, wire[|s.wire|..])
  {
    assert wire[|s.wire|..] == [PictureFor(r.shape, slot), PointerCached(slot)];
    NotShown(s, n, r.shape);
  }

  lemma NotShown(s: State, n: nat, shape: Shape)
    requires Coherent(s, n) && !Holds(s.cache, shape)
    ensures s.Peer().shown != Picture(shape)
  {
  }

  /** Hiding the pointer, or going back to the default one, is what the client then shows; its pictures stay. */
  lemma TypeIsShown(s: State, n: nat, t: CursorType)
    requires Coherent(s, n) && t != ImageCursor
    ensures var after := WithType(s, t);
            && Coherent(after, n)
            && after.Peer() == Client(s.Peer().slots, if t == Hidden then Nothing else Default)
            && |after.wire| <= |s.wire| + 1
  {
    Sent(s.wire, PointerSystem(t == Hidden));
  }
}
