/** The Qt editor's two-tier image cache: one `OrderedDict` of original images bounded at 10
    entries and one of scaled pixmaps bounded at 20, both in least-recently-used order (the
    oldest entry first). A tier is modelled as the sequence of its (key, value) entries in
    dictionary order; PIL images and QPixmaps themselves are abstract handles, and all that
    is kept of them is whether `close()` has been called. */
module ImageCache {
  import opened Wrappers
  import opened PyText

  /** An image object: a number allocated from a counter, so that two loads never share one. */
  type Handle = nat

  const MaxOriginals: nat := 10
  const MaxScaled: nat := 20

  /** One item of an `OrderedDict`. */
  datatype Entry = Entry(key: string, image: Handle)

  /** A dictionary holds each key once. */
  predicate UniqueKeys(es: seq<Entry>) {
    forall i, j :: 0 <= i < j < |es| ==> es[i].key != es[j].key
  }

  predicate UniqueHandles(es: seq<Entry>) {
    forall i, j :: 0 <= i < j < |es| ==> es[i].image != es[j].image
  }

  /** `d.get(k)`. */
  function Find(es: seq<Entry>, k: string): (r: Option<Handle>)
    ensures r.Some? ==> Entry(k, r.value) in es
    ensures r.None? ==> forall i :: 0 <= i < |es| ==> es[i].key != k
  {
    if es == [] then None
    else if es[0].key == k then Some(es[0].image)
    else Find(es[1..], k)
  }

  /** `d.pop(k)`: the entries without `k`, the others in their order. */
  function Remove(es: seq<Entry>, k: string): (r: seq<Entry>)
    ensures forall e :: e in r <==> e in es && e.key != k
    ensures |r| <= |es|
  {
    if es == [] then []
    else if es[0].key == k then Remove(es[1..], k)
    else [es[0]] + Remove(es[1..], k)
  }

  lemma {:induction false} RemoveAbsent(es: seq<Entry>, k: string)
    requires forall i :: 0 <= i < |es| ==> es[i].key != k
    ensures Remove(es, k) == es
  {
    if es != [] {
      RemoveAbsent(es[1..], k);
      assert es == [es[0]] + es[1..];
    }
  }

  /** Removing a key keeps the dictionary's keys unique and drops exactly one entry when
      the key is present. */
  lemma {:induction false} RemoveUnique(es: seq<Entry>, k: string)
    requires UniqueKeys(es)
    ensures UniqueKeys(Remove(es, k))
    ensures Find(es, k).Some? ==> |Remove(es, k)| == |es| - 1
  {
    if es != [] {
      assert UniqueKeys(es[1..]);
      RemoveUnique(es[1..], k);
      if es[0].key == k {
        assert forall i :: 0 <= i < |es[1..]| ==> es[1..][i].key != k;
        RemoveAbsent(es[1..], k);
      } else {
        var rest := Remove(es[1..], k);
        assert forall i :: 0 <= i < |rest| ==> rest[i].key != es[0].key by {
          forall i | 0 <= i < |rest|
            ensures rest[i].key != es[0].key
          {
            assert rest[i] in es[1..];
          }
        }
        PrependUnique(es[0], rest);
      }
    }
  }

  lemma PrependUnique(e: Entry, es: seq<Entry>)
    requires UniqueKeys(es) && forall i :: 0 <= i < |es| ==> es[i].key != e.key
    ensures UniqueKeys([e] + es)
  {
    assert forall i :: 0 < i <= |es| ==> ([e] + es)[i] == es[i - 1];
  }

  /** `pop` keeps the order of the entries that remain: removing the key at position `i`
      is cutting that one entry out. */
  lemma {:induction false} RemoveAt(es: seq<Entry>, k: string, i: nat)
    requires UniqueKeys(es) && i < |es| && es[i].key == k
    ensures Remove(es, k) == es[..i] + es[i + 1..]
  {
    UniqueTail(es);
    if i == 0 {
      RemoveAbsent(es[1..], k);
    } else {
      RemoveKeeps(es, k);
      RemoveAt(es[1..], k, i - 1);
      CutShift(es, i);
    }
  }

  // The tail of a dictionary with unique keys has unique keys, none equal to the head's.
  lemma UniqueTail(es: seq<Entry>)
    requires UniqueKeys(es) && es != []
    ensures UniqueKeys(es[1..])
    ensures forall j :: 0 <= j < |es[1..]| ==> es[1..][j].key != es[0].key
  {
    forall j | 0 <= j < |es[1..]|
      ensures es[1..][j].key != es[0].key
    {
      assert es[1..][j] == es[j + 1];
    }
  }

  // A head entry with another key survives `pop`.
  lemma RemoveKeeps(es: seq<Entry>, k: string)
    requires es != [] && es[0].key != k
    ensures Remove(es, k) == [es[0]] + Remove(es[1..], k)
  {
  }

  lemma CutShift(es: seq<Entry>, i: nat)
    requires 0 < i < |es|
    ensures es[..i] + es[i + 1..] == [es[0]] + (es[1..][..i - 1] + es[1..][i..])
  {
  }

  /** `v = d.pop(k); d[k] = v`: the entry for `k` moves to the most-recent end. */
  function Touch(es: seq<Entry>, k: string, v: Handle): seq<Entry> {
    Remove(es, k) + [Entry(k, v)]
  }

  /** A hit reorders and never grows the tier: the touched entry becomes the newest, and
      the same entries remain, each key once. */
  lemma TouchKeepsTier(es: seq<Entry>, k: string)
    requires UniqueKeys(es) && Find(es, k).Some?
    ensures var r := Touch(es, k, Find(es, k).value);
      UniqueKeys(r) && |r| == |es| && r[|r| - 1] == Entry(k, Find(es, k).value)
      && forall e :: e in r <==> e in es
  {
    RemoveUnique(es, k);
    var v := Find(es, k).value;
    var r := Touch(es, k, v);
    forall e | e in es && e.key == k
      ensures e == Entry(k, v)
    {
      var i :| 0 <= i < |es| && es[i] == e;
      var j :| 0 <= j < |es| && es[j] == Entry(k, v);
    }
  }

  /** A hit is strict least-recently-used bookkeeping: the touched entry is cut out and put
      at the newest end, and every other entry keeps its place in the order. */
  lemma TouchOrder(es: seq<Entry>, i: nat)
    requires UniqueKeys(es) && i < |es|
    ensures Touch(es, es[i].key, es[i].image) == es[..i] + es[i + 1..] + [es[i]]
  {
    RemoveAt(es, es[i].key, i);
  }

  /** The entries `popitem(last=False)` leaves once the tier is back within `max`. */
  function Newest(es: seq<Entry>, max: nat): seq<Entry> {
    if |es| <= max then es else es[|es| - max..]
  }

  /** The entries it pops, oldest first. */
  function Oldest(es: seq<Entry>, max: nat): seq<Entry> {
    if |es| <= max then [] else es[..|es| - max]
  }

  /** Eviction takes only from the oldest end: what is popped followed by what remains is
      the tier as it was, what remains is within the bound, and the newest entry survives. */
  lemma EvictionFromOldestEnd(es: seq<Entry>, max: nat)
    requires max > 0 && |es| > 0
    ensures Oldest(es, max) + Newest(es, max) == es
    ensures |Newest(es, max)| == if |es| <= max then |es| else max
    ensures Newest(es, max)[|Newest(es, max)| - 1] == es[|es| - 1]
  {
  }

  /** The images held by some entries. */
  function HandlesOf(es: seq<Entry>): (r: set<Handle>)
    ensures forall h :: h in r <==> exists i :: 0 <= i < |es| && es[i].image == h
  {
    set i | 0 <= i < |es| :: es[i].image
  }

  lemma HandlesOfSnoc(es: seq<Entry>, e: Entry)
    ensures HandlesOf(es + [e]) == HandlesOf(es) + {e.image}
  {
    assert forall i :: 0 <= i < |es| ==> (es + [e])[i] == es[i];
    assert (es + [e])[|es|] == e;
  }

  /** What the original tier promises between calls: at most `max` entries, keys and
      images each held once, every cached image still open, every handle allocated. */
  ghost predicate OriginalTier(es: seq<Entry>, max: nat, closed: set<Handle>, next: Handle) {
    UniqueKeys(es) && UniqueHandles(es) && |es| <= max
    && (forall i :: 0 <= i < |es| ==> es[i].image < next && es[i].image !in closed)
    && (forall c :: c in closed ==> c < next)
  }

  /** A hit keeps the original tier an original tier. */
  lemma TouchKeepsOriginalTier(es: seq<Entry>, k: string, max: nat, closed: set<Handle>, next: Handle)
    requires OriginalTier(es, max, closed, next) && Find(es, k).Some?
    ensures OriginalTier(Touch(es, k, Find(es, k).value), max, closed, next)
  {
    TouchKeepsTier(es, k);
    var r := Touch(es, k, Find(es, k).value);
    forall i, j | 0 <= i < j < |r|
      ensures r[i].image != r[j].image
    {
      assert r[i] in es && r[j] in es;
      assert r[i].key != r[j].key;
    }
    forall i | 0 <= i < |r|
      ensures r[i].image < next && r[i].image !in closed
    {
      assert r[i] in es;
    }
  }

  /** What eviction keeps of a dictionary is a dictionary, made of entries it had. */
  lemma NewestOfTier(es: seq<Entry>, max: nat)
    requires UniqueKeys(es)
    ensures UniqueKeys(Newest(es, max)) && |Newest(es, max)| <= |es|
    ensures forall e :: e in Newest(es, max) ==> e in es
  {
  }

  /** Images that stay cached are not among those eviction pops, since no image is held
      twice. */
  lemma KeptNotPopped(es: seq<Entry>, max: nat)
    requires UniqueHandles(es)
    ensures UniqueHandles(Newest(es, max))
    ensures forall i :: 0 <= i < |Newest(es, max)| ==> Newest(es, max)[i].image !in HandlesOf(Oldest(es, max))
  {
    if |es| > max {
      var cut := |es| - max;
      var kept, popped := es[cut..], es[..cut];
      forall i | 0 <= i < |kept|
        ensures kept[i].image !in HandlesOf(popped)
      {
        forall j | 0 <= j < cut
          ensures popped[j].image != kept[i].image
        {
          assert popped[j] == es[j] && kept[i] == es[cut + i];
        }
      }
    }
  }

  /** Allocating a handle elsewhere keeps the tier's promises. */
  lemma LaterHandle(es: seq<Entry>, max: nat, closed: set<Handle>, next: Handle)
    requires OriginalTier(es, max, closed, next)
    ensures OriginalTier(es, max, closed, next + 1)
  {
  }

  /** Appending a freshly loaded image and closing what eviction pops keeps the tier's
      promises: in particular no image that stays cached is closed. */
  lemma EvictionKeepsTier(es: seq<Entry>, key: string, max: nat, closed: set<Handle>, next: Handle)
    requires OriginalTier(es, max, closed, next) && max > 0
    requires forall i :: 0 <= i < |es| ==> es[i].key != key
    ensures var all := es + [Entry(key, next)];
      OriginalTier(Newest(all, max), max, closed + HandlesOf(Oldest(all, max)), next + 1)
  {
    var all := es + [Entry(key, next)];
    assert forall i :: 0 <= i < |all| ==> all[i].image < next + 1 && all[i].image !in closed;
    assert UniqueKeys(all) && UniqueHandles(all);
    NewestOfTier(all, max);
    KeptNotPopped(all, max);
  }

  /** In a full tier, a hit on `k` followed by a miss on a new key evicts exactly the oldest
      entry other than `k`, and keeps `k`. */
  lemma HitProtectsFromEviction(es: seq<Entry>, i: nat, key: string, h: Handle, max: nat)
    requires UniqueKeys(es) && |es| == max >= 2 && i < |es|
    requires forall j :: 0 <= j < |es| ==> es[j].key != key
    ensures var all := Touch(es, es[i].key, es[i].image) + [Entry(key, h)];
      && Oldest(all, max) == [if i == 0 then es[1] else es[0]]
      && Newest(all, max) == (es[..i] + es[i + 1..])[1..] + [es[i], Entry(key, h)]
      && es[i] in Newest(all, max)
  {
    TouchOrder(es, i);
    var rest := es[..i] + es[i + 1..];
    var all := rest + [es[i]] + [Entry(key, h)];
    assert |all| == max + 1;
    assert all[..1] == [rest[0]];
    assert all[1..] == rest[1..] + [es[i], Entry(key, h)];
    assert rest[0] == if i == 0 then es[1] else es[0];
  }

  /** `f"{photo_path}_{w}x{h}"`, the key of the scaled tier. */
  function ScaledKey(path: string, width: nat, height: nat): string {
    path + "_" + Decimal(width) + "x" + Decimal(height)
  }

  /** The length of the run of digits at the end of `s`. */
  function TrailingDigits(s: string): (n: nat)
    ensures n <= |s|
  {
    if s != [] && IsDigit(s[|s| - 1]) then 1 + TrailingDigits(s[..|s| - 1]) else 0
  }

  lemma {:induction false} TrailingDigitsAfter(a: string, c: char, digits: string)
    requires !IsDigit(c) && forall i :: 0 <= i < |digits| ==> IsDigit(digits[i])
    ensures TrailingDigits(a + [c] + digits) == |digits|
  {
    var s := a + [c] + digits;
    if digits == [] {
      assert s[|s| - 1] == c;
    } else {
      var shorter := digits[..|digits| - 1];
      assert s[..|s| - 1] == a + [c] + shorter;
      assert s[|s| - 1] == digits[|digits| - 1];
      TrailingDigitsAfter(a, c, shorter);
    }
  }

  /** A separator that is not a digit, followed by digits, splits the string back apart. */
  lemma SplitAtDigits(a1: string, d1: string, a2: string, d2: string, c: char)
    requires !IsDigit(c)
    requires forall i :: 0 <= i < |d1| ==> IsDigit(d1[i])
    requires forall i :: 0 <= i < |d2| ==> IsDigit(d2[i])
    requires a1 + [c] + d1 == a2 + [c] + d2
    ensures a1 == a2 && d1 == d2
  {
    var s := a1 + [c] + d1;
    TrailingDigitsAfter(a1, c, d1);
    TrailingDigitsAfter(a2, c, d2);
    assert |a1| == |a2|;
    assert a1 == s[..|a1|] && a2 == s[..|a2|];
    assert d1 == s[|a1| + 1..] && d2 == s[|a2| + 1..];
  }

  /** Different photos or different sizes never share a slot of the scaled tier. */
  lemma ScaledKeyInjective(p1: string, w1: nat, h1: nat, p2: string, w2: nat, h2: nat)
    requires ScaledKey(p1, w1, h1) == ScaledKey(p2, w2, h2)
    ensures p1 == p2 && w1 == w2 && h1 == h2
  {
    SplitAtDigits(p1 + "_" + Decimal(w1), Decimal(h1), p2 + "_" + Decimal(w2), Decimal(h2), 'x');
    SplitAtDigits(p1, Decimal(w1), p2, Decimal(w2), '_');
  }

  class Cache {
    /** `image_cache`, oldest entry first. */
    var originals: seq<Entry>
    /** `scaled_cache`, oldest entry first. */
    var scaled: seq<Entry>
    /** The handles whose `close()` has been called. */
    var closed: set<Handle>
    /** The handle the next load or conversion produces. */
    var nextHandle: Handle

    ghost predicate Valid()
      reads this
    {
      OriginalTier(originals, MaxOriginals, closed, nextHandle)
      && UniqueKeys(scaled) && |scaled| <= MaxScaled
      && forall e :: e in scaled ==> e.image < nextHandle
    }

    constructor ()
      ensures Valid()
      ensures originals == [] && scaled == [] && closed == {}
    {
      originals := [];
      scaled := [];
      closed := {};
      nextHandle := 0;
    }

    /** `_manage_image_cache(self.image_cache, self.max_cache_size)`: pops the oldest
        originals until at most 10 remain, closing each one it pops. */
    method ManageImageCache()
      modifies this
      ensures originals == Newest(old(originals), MaxOriginals)
      ensures closed == old(closed) + HandlesOf(Oldest(old(originals), MaxOriginals))
      ensures scaled == old(scaled) && nextHandle == old(nextHandle)
    {
      var entries, shut := originals, closed;
      ghost var popped := 0;
      while |entries| > MaxOriginals
        invariant 0 <= popped <= |originals| && entries == originals[popped..]
        invariant |originals| > MaxOriginals ==> popped <= |originals| - MaxOriginals
        invariant |originals| <= MaxOriginals ==> popped == 0
        invariant shut == closed + HandlesOf(originals[..popped])
        invariant unchanged(this)
        decreases |entries|
      {
        var oldest := entries[0];
        HandlesOfSnoc(originals[..popped], oldest);
        assert originals[..popped + 1] == originals[..popped] + [oldest];
        entries := entries[1..];
        shut := shut + {oldest.image};
        popped := popped + 1;
      }
      assert entries == Newest(originals, MaxOriginals);
      assert originals[..popped] == Oldest(originals, MaxOriginals);
      originals, closed := entries, shut;
    }

    /** `_manage_scaled_cache`: pops the oldest pixmaps until at most 20 remain; they are not
        closed. */
    method ManageScaledCache()
      modifies this
      ensures scaled == Newest(old(scaled), MaxScaled)
      ensures originals == old(originals) && closed == old(closed) && nextHandle == old(nextHandle)
    {
      var entries := scaled;
      ghost var popped := 0;
      while |entries| > MaxScaled
        invariant 0 <= popped <= |scaled| && entries == scaled[popped..]
        invariant |scaled| > MaxScaled ==> popped <= |scaled| - MaxScaled
        invariant |scaled| <= MaxScaled ==> popped == 0
        invariant unchanged(this)
        decreases |entries|
      {
        entries := entries[1..];
        popped := popped + 1;
      }
      scaled := entries;
    }

    /** `_get_cached_image(photo_path)`. A hit returns the cached image and makes it the
        newest entry; a miss loads the image, appends it and evicts down to 10 entries.
        `loaded` says whether loading succeeds; when it does not, the result is `None` (the
        exception reaches the caller) and nothing changes. */
    method GetCachedImage(path: string, loaded: bool) returns (image: Option<Handle>)
      modifies this
      requires Valid()
      ensures Valid()
      ensures old(Find(originals, path)).Some? ==>
        image == old(Find(originals, path)) && originals == Touch(old(originals), path, image.value)
        && closed == old(closed) && nextHandle == old(nextHandle)
      ensures old(Find(originals, path)).None? && !loaded ==>
        image == None && originals == old(originals) && closed == old(closed) && nextHandle == old(nextHandle)
      ensures old(Find(originals, path)).None? && loaded ==>
        var all := old(originals) + [Entry(path, old(nextHandle))];
        image == Some(old(nextHandle)) && nextHandle == old(nextHandle) + 1
        && originals == Newest(all, MaxOriginals)
        && closed == old(closed) + HandlesOf(Oldest(all, MaxOriginals))
      ensures image.Some? ==> originals[|originals| - 1] == Entry(path, image.value)
      ensures scaled == old(scaled)
    {
      var found := Find(originals, path);
      if found.Some? {
        TouchKeepsTier(originals, path);
        TouchKeepsOriginalTier(originals, path, MaxOriginals, closed, nextHandle);
        originals := Touch(originals, path, found.value);
        return found;
      }
      if !loaded {
        return None;
      }
      var h := nextHandle;
      EvictionKeepsTier(originals, path, MaxOriginals, closed, h);
      EvictionFromOldestEnd(originals + [Entry(path, h)], MaxOriginals);
      nextHandle := nextHandle + 1;
      originals := originals + [Entry(path, h)];
      ManageImageCache();
      image := Some(h);
    }

    /** `_get_cached_scaled_pixmap(photo_path, (width, height))`. A hit returns the cached
        pixmap and makes it the newest entry; a miss goes through `GetCachedImage` (so the
        original tier is touched or filled as there) and then resizes the original. `loaded`
        says whether opening the image succeeds and `resized` whether `resize` does: PIL
        opens lazily, so a corrupt file can open, be cached, and only fail when its pixels
        are decoded. That error is raised outside any handler, so the result is `None` with
        the original tier as `GetCachedImage` left it and the scaled tier unchanged.
        Otherwise a new pixmap is appended and the tier trimmed to 20; a failed conversion,
        which yields a grey placeholder, still yields a new pixmap. */
    method GetCachedScaledPixmap(path: string, width: nat, height: nat, loaded: bool, resized: bool)
        returns (pixmap: Option<Handle>)
      modifies this
      requires Valid()
      ensures Valid()
      ensures var key := ScaledKey(path, width, height);
        old(Find(scaled, key)).Some? ==>
          pixmap == old(Find(scaled, key)) && scaled == Touch(old(scaled), key, pixmap.value)
          && originals == old(originals) && closed == old(closed) && nextHandle == old(nextHandle)
      ensures var key := ScaledKey(path, width, height);
        old(Find(scaled, key)).None? && old(Find(originals, path)).None? && !loaded ==>
          pixmap == None && scaled == old(scaled) && originals == old(originals) && closed == old(closed)
          && nextHandle == old(nextHandle)
      ensures var key := ScaledKey(path, width, height);
        old(Find(scaled, key)).None? && (old(Find(originals, path)).Some? || loaded) && resized ==>
          pixmap.Some? && scaled == Newest(old(scaled) + [Entry(key, pixmap.value)], MaxScaled)
      ensures var key := ScaledKey(path, width, height);
        old(Find(scaled, key)).None? && (old(Find(originals, path)).Some? || loaded) && !resized ==>
          pixmap == None && scaled == old(scaled)
      ensures pixmap.Some? ==> scaled[|scaled| - 1] == Entry(ScaledKey(path, width, height), pixmap.value)
      ensures var key := ScaledKey(path, width, height);
        old(Find(scaled, key)).None? && old(Find(originals, path)).Some? ==>
          originals == Touch(old(originals), path, old(Find(originals, path)).value)
          && closed == old(closed)
          && (resized ==> pixmap == Some(old(nextHandle)) && nextHandle == old(nextHandle) + 1)
          && (!resized ==> nextHandle == old(nextHandle))
      ensures var key := ScaledKey(path, width, height);
        old(Find(scaled, key)).None? && old(Find(originals, path)).None? && loaded ==>
          var all := old(originals) + [Entry(path, old(nextHandle))];
          && originals == Newest(all, MaxOriginals)
          && closed == old(closed) + HandlesOf(Oldest(all, MaxOriginals))
          && (resized ==> pixmap == Some(old(nextHandle) + 1) && nextHandle == old(nextHandle) + 2)
          && (!resized ==> nextHandle == old(nextHandle) + 1)
    {
      var key := ScaledKey(path, width, height);
      var found := Find(scaled, key);
      if found.Some? {
        TouchKeepsTier(scaled, key);
        scaled := Touch(scaled, key, found.value);
        return found;
      }
      var original := GetCachedImage(path, loaded);
      if original.None? || !resized {
        return None;
      }
      var p := AddScaled(key);
      pixmap := Some(p);
    }

    /** The miss path's last step: the new pixmap (or its grey placeholder) is stored under
        `key` at the most-recent end and the tier is trimmed back to 20 entries. */
    method AddScaled(key: string) returns (p: Handle)
      modifies this
      requires Valid() && Find(scaled, key).None?
      ensures Valid()
      ensures p == old(nextHandle) && nextHandle == old(nextHandle) + 1
      ensures scaled == Newest(old(scaled) + [Entry(key, p)], MaxScaled)
      ensures scaled[|scaled| - 1] == Entry(key, p)
      ensures originals == old(originals) && closed == old(closed)
    {
      p := nextHandle;
      var all := scaled + [Entry(key, p)];
      assert UniqueKeys(all) && forall e :: e in all ==> e.image < p + 1;
      EvictionFromOldestEnd(all, MaxScaled);
      NewestOfTier(all, MaxScaled);
      LaterHandle(originals, MaxOriginals, closed, p);
      nextHandle := nextHandle + 1;
      scaled := all;
      ManageScaledCache();
    }

    /** `_clear_image_caches`: closes every cached original and empties both tiers. */
    method ClearImageCaches()
      modifies this
      requires Valid()
      ensures Valid()
      ensures originals == [] && scaled == []
      ensures closed == old(closed) + HandlesOf(old(originals))
      ensures nextHandle == old(nextHandle)
    {
      closed := closed + HandlesOf(originals);
      originals := [];
      scaled := [];
    }
  }
}
