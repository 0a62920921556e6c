/** The cursor cache and its mirror in the client's pointer cache (MS-RDPBCGR, section 2.2.9.1.1.4). */
module Cursors {
  import opened Basics
  import opened Geometry

  const LARGEST_POINTER := 384
  const LARGE_POINTER := 96

  datatype Image = NoImage | Image(width: nat, height: nat, pixels: int)

  /** What the user sees: two updates are equal when their hotspot and image are. */
  datatype Shape = Shape(hotspot: Point, image: Image) {
    predicate TooLarge() {
      image.Image? && (image.width > LARGEST_POINTER || image.height > LARGEST_POINTER)
    }

    predicate Cacheable() {
      image.Image? && !TooLarge()
    }
  }

  datatype CursorType = Hidden | SystemDefault | ImageCursor

  datatype CachedCursor = CachedCursor(shape: Shape, cacheId: nat, lastUsed: int)

  datatype PointerPdu =
    | PointerSystem(hidden: bool)
    | PointerNew(cacheIndex: nat, shape: Shape)
    | PointerLarge(cacheIndex: nat, shape: Shape)
    | PointerCached(cacheIndex: nat)

  /** The pointer state of a client: its cache, and the pointer it shows; none stands for the hidden pointer. */
  datatype Shown = Default | Nothing | Picture(shape: Shape)

  datatype Client = Client(slots: map<nat, Shape>, shown: Shown)

  function Receive(c: Client, p: PointerPdu): Client {
    match p
    case PointerSystem(hidden) => c.(shown := if hidden then Nothing else Default)
    case PointerNew(index, shape) => Client(c.slots[index := shape], Picture(shape))
    case PointerLarge(index, shape) => Client(c.slots[index := shape], Picture(shape))
    case PointerCached(index) => if index in c.slots then c.(shown := Picture(c.slots[index])) else c
  }

  function ReceiveAll(wire: seq<PointerPdu>): Client {
    if |wire| == 0 then Client(map[], Default) else Receive(ReceiveAll(wire[..|wire| - 1]), wire[|wire| - 1])
  }

  /** How many pictures were sent in full. */
  function Uploads(wire: seq<PointerPdu>): nat {
    if |wire| == 0 then 0
    else
      var p := wire[|wire| - 1];
      Uploads(wire[..|wire| - 1]) + if p.PointerNew? || p.PointerLarge? then 1 else 0
  }

  /** `lastUsed` is the cache key of the entry the program's pointer refers to. */
  datatype State = State(
    cursorType: CursorType, lastUsed: Option<nat>, cache: map<nat, CachedCursor>, wire: seq<PointerPdu>)
  {
    function Send(p: PointerPdu): State {
      this.(wire := wire + [p])
    }

    function Peer(): Client {
      ReceiveAll(wire)
    }

    /** The entry was just used. */
    function Touch(key: nat, now: int): State
      requires key in cache
    {
      this.(cache := cache[key := cache[key].(lastUsed := now)], lastUsed := Some(key))
    }
  }

  const INITIAL := State(SystemDefault, None, map[], [])

  datatype Request = Request(shape: Shape, now: int, streaming: bool)

  function WithType(s: State, t: CursorType): State {
    if s.cursorType == t then s
    else if t == ImageCursor then s.(cursorType := t)
    else s.(cursorType := t, lastUsed := None).Send(PointerSystem(t == Hidden))
  }

  predicate Holds(cache: map<nat, CachedCursor>, shape: Shape) {
    exists k :: k in cache && cache[k].shape == shape
  }

  /** A least recently used entry; a tie is broken by the hash order, so any of them. */
  predicate IsVictim(cache: map<nat, CachedCursor>, victim: nat) {
    victim in cache && forall k :: k in cache ==> cache[victim].lastUsed <= cache[k].lastUsed
  }

  function Upload(index: nat, shape: Shape): PointerPdu {
    if shape.image.Image? && shape.image.width < LARGE_POINTER && shape.image.height < LARGE_POINTER
    then PointerNew(index, shape) else PointerLarge(index, shape)
  }

  /** Puts a new cursor into slot `index`, evicting what is there. */
  function Insert(s: State, index: nat, shape: Shape, now: int): State {
    s.(cache := s.cache[index := CachedCursor(shape, index, now)], lastUsed := Some(index))
     .Send(Upload(index, shape)).Send(PointerCached(index))
  }

  /** One step of the cursor, `capacity` being the client's pointer cache size. */
  ghost predicate Next(s: State, r: Request, capacity: nat, t: State) {
    if !r.streaming || r.shape.image.NoImage? then t == s
    else if r.shape.TooLarge() then t == WithType(s, SystemDefault)
    else NextPicture(WithType(s, ImageCursor), r.shape, r.now, capacity, t)
  }

  ghost predicate NextPicture(s: State, shape: Shape, now: int, capacity: nat, t: State) {
    if s.lastUsed.Some? && s.lastUsed.value in s.cache && s.cache[s.lastUsed.value].shape == shape then
      t == s.Touch(s.lastUsed.value, now)
    else if Holds(s.cache, shape) then
      exists k :: k in s.cache && s.cache[k].shape == shape
        && t == s.Touch(k, now).Send(PointerCached(s.cache[k].cacheId))
    else if |s.cache| < capacity then
      t == Insert(s, |s.cache|, shape, now)
    else
      exists v :: IsVictim(s.cache, v) && t == Insert(s.(cache := s.cache - {v}), s.cache[v].cacheId, shape, now)
  }

  class Cursor {
    const capacity: nat
    var cursorType: CursorType
    var lastUsedCursor: Option<nat>
    var cursorCache: map<nat, CachedCursor>
    ghost var wire: seq<PointerPdu>

    ghost function Model(): State
      reads this
    {
      State(cursorType, lastUsedCursor, cursorCache, wire)
    }

    /** The client announced room for at least one pointer. */
    constructor (capacity: nat)
      requires capacity > 0
      ensures this.capacity == capacity && Model() == INITIAL
    {
      this.capacity := capacity;
      cursorType, lastUsedCursor, cursorCache, wire := SystemDefault, None, map[], [];
    }

    method SetCursorType(t: CursorType)
      modifies this
      ensures Model() == WithType(old(Model()), t)
    {
      if cursorType == t {
        return;
      }
      cursorType := t;
      if t != ImageCursor {
        lastUsedCursor := None;
        wire := wire + [PointerSystem(t == Hidden)];
      }
    }

    method Update(update: Shape, now: int, streaming: bool)
      requires capacity > 0 && Coherent(Model(), capacity)
      modifies this
      ensures Next(old(Model()), Request(update, now, streaming), capacity, Model())
      ensures Coherent(Model(), capacity) && Served(old(Model()), Request(update, now, streaming), Model())
    {
      Process(update, now, streaming);
      NextStaysCoherent(old(Model()), Request(update, now, streaming), capacity, Model());
    }

    method Process(update: Shape, now: int, streaming: bool)
      requires capacity > 0 && Coherent(Model(), capacity)
      modifies this
      ensures Next(old(Model()), Request(update, now, streaming), capacity, Model())
    {
      if !streaming || update.image.NoImage? {
        return;
      }
      if update.TooLarge() {
        SetCursorType(SystemDefault);
        return;
      }
      SetCursorType(ImageCursor);
      if lastUsedCursor.Some? && cursorCache[lastUsedCursor.value].shape == update {
        Touch(lastUsedCursor.value, now);
        return;
      }
      if k :| k in cursorCache && cursorCache[k].shape == update {
        var cacheId := cursorCache[k].cacheId;
        Touch(k, now);
        wire := wire + [PointerCached(cacheId)];
        return;
      }
      var cacheId := |cursorCache|;
      if |cursorCache| >= capacity {
        SomeVictimExists(cursorCache);
        var lru :| IsVictim(cursorCache, lru);
        cacheId := cursorCache[lru].cacheId;
        cursorCache := cursorCache - {lru};
      }
      wire := wire + [Upload(cacheId, update)];
      wire := wire + [PointerCached(cacheId)];
      cursorCache := cursorCache[cacheId := CachedCursor(update, cacheId, now)];
      lastUsedCursor := Some(cacheId);
    }

    method Touch(key: nat, now: int)
      requires key in cursorCache
      modifies this
      ensures Model() == old(Model()).Touch(key, now)
    {
      cursorCache := cursorCache[key := cursorCache[key].(lastUsed := now)];
      lastUsedCursor := Some(key);
    }
  }

  lemma {:induction false} SomeVictimExists(cache: map<nat, CachedCursor>)
    requires |cache| > 0
    ensures exists v :: IsVictim(cache, v)
  {
    var k :| k in cache;
    var rest := cache - {k};
    if |rest| == 0 {
      assert forall j :: j in cache ==> j == k by {
        assert rest.Keys == {};
      }
      assert IsVictim(cache, k);
    } else {
      SomeVictimExists(rest);
      var v :| IsVictim(rest, v);
      assert forall j :: j in cache ==> j == k || j in rest;
      assert IsVictim(cache, if cache[k].lastUsed <= cache[v].lastUsed then k else v);
    }
  }

  /** What the client shows when the server believes it shows the cursor type `t`. */
  ghost predicate ShowsType(s: State) {
    match s.cursorType
    case SystemDefault => s.lastUsed.None? && s.Peer().shown == Default
    case Hidden => s.lastUsed.None? && s.Peer().shown == Nothing
    case ImageCursor =>
      s.lastUsed.Some? && s.lastUsed.value in s.cache && s.Peer().shown == Picture(s.cache[s.lastUsed.value].shape)
  }

  /** The cache occupies slots 0, 1, ... without gaps, no more than the capacity, each entry under its own number and
      no cursor twice; and the client holds the same pictures in the same slots. */
  ghost predicate Mirrored(s: State, capacity: nat) {
    |s.cache| <= capacity && Gapless(s.cache) && Mirrors(s.cache, s.Peer().slots)
  }

  ghost predicate Gapless(cache: map<nat, CachedCursor>) {
    && (forall k :: k in cache <==> 0 <= k < |cache|)
    && (forall k :: k in cache ==> cache[k].cacheId == k)
    && (forall j, k :: j in cache && k in cache && cache[j].shape == cache[k].shape ==> j == k)
  }

  ghost predicate Mirrors(cache: map<nat, CachedCursor>, slots: map<nat, Shape>) {
    slots.Keys == cache.Keys && forall k :: k in cache ==> slots[k] == cache[k].shape
  }

  ghost predicate Coherent(s: State, capacity: nat) {
    Mirrored(s, capacity) && ShowsType(s)
  }

  lemma Sent(wire: seq<PointerPdu>, p: PointerPdu)
    ensures ReceiveAll(wire + [p]) == Receive(ReceiveAll(wire), p)
    ensures Uploads(wire + [p]) == Uploads(wire) + if p.PointerNew? || p.PointerLarge? then 1 else 0
  {
  }

  lemma TypeStaysCoherent(s: State, capacity: nat)
    requires Coherent(s, capacity)
    ensures Coherent(WithType(s, SystemDefault), capacity)
    ensures Mirrored(WithType(s, ImageCursor), capacity)
  {
  }

  lemma TouchStaysMirrored(s: State, key: nat, now: int, capacity: nat)
    requires Mirrored(s, capacity) && key in s.cache
    ensures Mirrored(s.Touch(key, now), capacity)
    ensures s.Touch(key, now).cache.Keys == s.cache.Keys
  {
  }

  lemma HitStaysCoherent(s: State, key: nat, now: int, capacity: nat)
    requires Mirrored(s, capacity) && key in s.cache && s.cursorType == ImageCursor
    ensures var t := s.Touch(key, now).Send(PointerCached(s.cache[key].cacheId));
            Coherent(t, capacity) && t.Peer().shown == Picture(s.cache[key].shape)
  {
    TouchStaysMirrored(s, key, now, capacity);
    Sent(s.wire, PointerCached(key));
  }

  /** Filling the next free slot, or replacing an entry, keeps the slots gapless and the cursors distinct. */
  lemma InsertedEntry(cache: map<nat, CachedCursor>, index: nat, entry: CachedCursor)
    requires Gapless(cache) && index <= |cache| && entry.cacheId == index && !Holds(cache, entry.shape)
    ensures |cache[index := entry]| == if index == |cache| then |cache| + 1 else |cache|
    ensures Gapless(cache[index := entry])
  {
  }

  lemma InsertReceived(s: State, index: nat, shape: Shape, now: int)
    ensures Insert(s, index, shape, now).Peer() == Client(s.Peer().slots[index := shape], Picture(shape))
  {
    var upload := Upload(index, shape);
    Sent(s.wire, upload);
    Sent(s.wire + [upload], PointerCached(index));
  }

  lemma MirrorsInserted(cache: map<nat, CachedCursor>, slots: map<nat, Shape>, index: nat, entry: CachedCursor)
    requires Mirrors(cache, slots)
    ensures Mirrors(cache[index := entry], slots[index := entry.shape])
  {
  }

  lemma InsertStaysMirrored(s: State, index: nat, shape: Shape, now: int, capacity: nat)
    requires Mirrored(s, capacity) && !Holds(s.cache, shape)
    requires index in s.cache || (index == |s.cache| < capacity)
    ensures Mirrored(Insert(s, index, shape, now), capacity)
    ensures Insert(s, index, shape, now).Peer() == Client(s.Peer().slots[index := shape], Picture(shape))
  {
    InsertedEntry(s.cache, index, CachedCursor(shape, index, now));
    MirrorsInserted(s.cache, s.Peer().slots, index, CachedCursor(shape, index, now));
    InsertReceived(s, index, shape, now);
  }

  lemma InsertStaysCoherent(s: State, index: nat, shape: Shape, now: int, capacity: nat)
    requires Mirrored(s, capacity) && !Holds(s.cache, shape) && s.cursorType == ImageCursor
    requires index in s.cache || (index == |s.cache| < capacity)
    ensures var t := Insert(s, index, shape, now);
            Coherent(t, capacity) && t.Peer().shown == Picture(shape)
  {
    InsertStaysMirrored(s, index, shape, now, capacity);
  }

  lemma ReplaceIsInsert(s: State, v: nat, shape: Shape, now: int)
    ensures Insert(s.(cache := s.cache - {v}), v, shape, now) == Insert(s, v, shape, now)
  {
  }

  lemma PictureStaysCoherent(s: State, shape: Shape, now: int, capacity: nat, t: State)
    requires capacity > 0 && Mirrored(s, capacity) && s.cursorType == ImageCursor
    requires s.lastUsed.Some? ==> ShowsType(s)
    requires NextPicture(s, shape, now, capacity, t)
    ensures Coherent(t, capacity) && t.Peer().shown == Picture(shape)
  {
    if s.lastUsed.Some? && s.lastUsed.value in s.cache && s.cache[s.lastUsed.value].shape == shape {
      TouchStaysMirrored(s, s.lastUsed.value, now, capacity);
    } else if Holds(s.cache, shape) {
      var k :| k in s.cache && s.cache[k].shape == shape
        && t == s.Touch(k, now).Send(PointerCached(s.cache[k].cacheId));
      HitStaysCoherent(s, k, now, capacity);
    } else if |s.cache| < capacity {
      InsertStaysCoherent(s, |s.cache|, shape, now, capacity);
    } else {
      var v :| IsVictim(s.cache, v) && t == Insert(s.(cache := s.cache - {v}), s.cache[v].cacheId, shape, now);
      ReplaceIsInsert(s, v, shape, now);
      InsertStaysCoherent(s, v, shape, now, capacity);
    }
  }

  /** Every update leaves the client in step with the server: it shows the requested cursor, or the default one if the
      request is too large, whether or not anything was sent. */
  lemma NextStaysCoherent(s: State, r: Request, capacity: nat, t: State)
    requires capacity > 0 && Coherent(s, capacity) && Next(s, r, capacity, t)
    ensures Coherent(t, capacity) && Served(s, r, t)
  {
    if r.streaming && r.shape.image.Image? {
      TypeStaysCoherent(s, capacity);
      if !r.shape.TooLarge() {
        PictureStaysCoherent(WithType(s, ImageCursor), r.shape, r.now, capacity, t);
      } else {
        Sent(s.wire, PointerSystem(false));
      }
    }
  }

  /** What the user sees after a request. */
  ghost predicate Served(s: State, r: Request, t: State) {
    if !r.streaming || r.shape.image.NoImage? then t == s
    else t.Peer().shown == if r.shape.TooLarge() then Default else Picture(r.shape)
  }
}
