/** The paged, filtered listing of a multi-key channel's keys (get_key_status), in 64-bit arithmetic. */
module KeyPaging {
  import opened Division
  import opened MachineTypes
  import opened MultiKeys
  import opened Options

  /** Division as Go does it, towards zero. */
  function Quotient(a: int, b: int): int
    requires b > 0
  {
    if a >= 0 then a / b else -(-a / b)
  }

  datatype Listing<+T> = Listing(items: seq<T>, total: nat, page: int, pageSize: int, totalPages: int) | Panics

  function EffectiveSize(pageSize: int): (r: int)
    ensures r > 0
  {
    if pageSize <= 0 then 50 else pageSize
  }

  function TotalPages(n: nat, size: int): int
    requires size > 0
  {
    var q := Quotient(Wrap(n + size - 1), size);
    if q == 0 then 1 else q
  }

  /** list[start:end] cut to the list as the handler does, or None where Go's slicing panics. */
  function Cut<T>(list: seq<T>, start: int, end: int): Option<seq<T>> {
    var last := if end > |list| then |list| else end;
    if start >= |list| then Some([])
    else if 0 <= start <= last then Some(list[start..last])
    else None
  }

  function ItemsAt<T>(list: seq<T>, p: int, size: int): Option<seq<T>> {
    var start := Wrap(Wrap(p - 1) * size);
    Cut(list, start, Wrap(start + size))
  }

  function GetPage<T>(list: seq<T>, page: int, pageSize: int): Listing<T> {
    var size := EffectiveSize(pageSize);
    var wanted := if page <= 0 then 1 else page;
    var pages := TotalPages(|list|, size);
    var p := if wanted > pages then pages else wanted;
    var items := ItemsAt(list, p, size);
    if items.None? then Panics else Listing(items.value, |list|, p, size, pages)
  }

  // The listing meant

  /** The number of pages of `size` items, at least one. */
  function PageCount(n: nat, size: nat): (r: nat)
    requires size > 0
  {
    if n <= size then 1 else 1 + PageCount(n - size, size)
  }

  /** Page `p` (from 1) of the list. */
  function PageItems<T>(list: seq<T>, p: nat, size: nat): seq<T>
    requires size > 0 && p > 0
    decreases p
  {
    if |list| <= size then (if p == 1 then list else [])
    else if p == 1 then list[..size]
    else PageItems(list[size..], p - 1, size)
  }

  function IdealPage<T>(list: seq<T>, page: int, pageSize: int): Listing<T> {
    var size := EffectiveSize(pageSize);
    var pages := PageCount(|list|, size);
    var p := if page <= 0 then 1 else if page > pages then pages else page;
    Listing(PageItems(list, p, size), |list|, p, size, pages)
  }

  function AllPages<T>(list: seq<T>, size: nat, upTo: nat): seq<T>
    requires size > 0
  {
    if upTo == 0 then [] else AllPages(list, size, upTo - 1) + PageItems(list, upTo, size)
  }

  lemma {:induction false} PageCountIsQuotient(n: nat, size: nat)
    requires size > 0
    ensures PageCount(n, size) == if n == 0 then 1 else (n + size - 1) / size
    decreases n
  {
    if n > size {
      PageCountIsQuotient(n - size, size);
      QuotientNext(n - 1, size);
    } else if n > 0 {
      QuotientNext(n - 1, size);
      SmallQuotient(n - 1, size);
    }
  }

  /** A page is a slice at the expected offset. */
  lemma {:induction false} PageItemsSlice<T>(list: seq<T>, p: nat, size: nat)
    requires size > 0 && 0 < p <= PageCount(|list|, size)
    ensures var start := (p - 1) * size;
            && 0 <= start <= |list| && (start == |list| ==> list == [])
            && PageItems(list, p, size) == list[start..if start + size > |list| then |list| else start + size]
    decreases p
  {
    if |list| <= size {
      assert p == 1;
    } else if p > 1 {
      PageItemsSlice(list[size..], p - 1, size);
      Distribute(p - 2, size);
    }
  }

  lemma Distribute(k: nat, size: nat)
    ensures (k + 1) * size == k * size + size
  {
  }

  /** The pages, one after another, are the list. */
  lemma {:induction false} PagesPrefix<T>(list: seq<T>, size: nat, k: nat)
    requires size > 0 && k <= PageCount(|list|, size)
    ensures AllPages(list, size, k) == list[..if k * size > |list| then |list| else k * size]
    decreases k
  {
    if k > 0 {
      PagesPrefix(list, size, k - 1);
      PageItemsSlice(list, k, size);
      Distribute(k - 1, size);
    }
  }

  lemma {:induction false} PageCountCovers(n: nat, size: nat)
    requires size > 0
    ensures PageCount(n, size) * size >= n
    decreases n
  {
    if n > size {
      PageCountCovers(n - size, size);
      Distribute(PageCount(n - size, size), size);
    }
  }

  lemma PagesJoin<T>(list: seq<T>, size: nat)
    requires size > 0
    ensures AllPages(list, size, PageCount(|list|, size)) == list
  {
    PagesPrefix(list, size, PageCount(|list|, size));
    PageCountCovers(|list|, size);
  }

  // When the handler's arithmetic gives that listing

  /** The page count does not overflow, or overflows so far that it still comes out as one page. */
  predicate CountsRight(n: nat, size: int) {
    n + size - 1 <= MAX_INT || 2 * size > TWO_64 - n + 1
  }

  lemma CountOverflows(n: nat, size: int)
    requires n < TWO_64 / 4 && 0 < size <= MAX_INT && n + size - 1 > MAX_INT
    ensures TotalPages(n, size) == if 2 * size > TWO_64 - n + 1 then 1 else -1
  {
    var a := TWO_64 - (n + size - 1);
    assert Wrap(n + size - 1) == -a;
    if a < size {
      SmallQuotient(a, size);
    } else {
      QuotientNext(a - size, size);
      SmallQuotient(a - size, size);
    }
  }

  lemma CountFits(n: nat, size: int)
    requires 0 < size && n + size - 1 <= MAX_INT
    ensures TotalPages(n, size) == PageCount(n, size)
  {
    PageCountIsQuotient(n, size);
    if n == 0 {
      SmallQuotient(size - 1, size);
    } else {
      QuotientNext(n - 1, size);
    }
  }

  lemma OffsetFits<T>(list: seq<T>, p: nat, size: nat)
    requires |list| < TWO_64 / 4 && 0 < size <= MAX_INT && 0 < p <= PageCount(|list|, size)
    ensures Wrap(p - 1) == p - 1 && Wrap((p - 1) * size) == (p - 1) * size
    ensures Wrap((p - 1) * size + size) == (p - 1) * size + size
  {
    PageItemsSlice(list, p, size);
    PagesBounded(p - 1, size, |list|);
    if p > 1 {
      AtLeastOnce(p - 1, size);
    } else {
      assert (p - 1) * size == 0;
    }
  }

  lemma ItemsFit<T>(list: seq<T>, p: nat, size: nat)
    requires |list| < TWO_64 / 4 && 0 < size <= MAX_INT && 0 < p <= PageCount(|list|, size)
    ensures ItemsAt(list, p, size) == Some(PageItems(list, p, size))
  {
    OffsetFits(list, p, size);
    PageItemsSlice(list, p, size);
  }

  lemma PageFits<T>(list: seq<T>, page: int, pageSize: int)
    requires |list| < TWO_64 / 4 && pageSize <= MAX_INT
    requires TotalPages(|list|, EffectiveSize(pageSize)) == PageCount(|list|, EffectiveSize(pageSize))
    ensures GetPage(list, page, pageSize) == IdealPage(list, page, pageSize)
  {
    ItemsFit(list, IdealPage(list, page, pageSize).page, EffectiveSize(pageSize));
  }

  lemma PagesBounded(k: nat, size: nat, n: nat)
    requires size > 0 && k * size <= n
    ensures k <= n
  {
    if k > n {
      AtLeastOnce(size, k);
    }
  }

  /** The handler answers every request with the intended page exactly when the count comes out right. */
  lemma PageIff<T>(list: seq<T>, page: int, pageSize: int)
    requires |list| < TWO_64 / 4 && pageSize <= MAX_INT
    ensures GetPage(list, page, pageSize) == IdealPage(list, page, pageSize) <==>
            CountsRight(|list|, EffectiveSize(pageSize))
  {
    var n, size := |list|, EffectiveSize(pageSize);
    if n + size - 1 <= MAX_INT {
      CountFits(n, size);
      PageFits(list, page, pageSize);
    } else {
      CountOverflows(n, size);
      if CountsRight(n, size) {
        PageFits(list, page, pageSize);
      } else {
        assert IdealPage(list, page, pageSize).totalPages >= 1;
      }
    }
  }

  /** Otherwise the count, and so the page, comes out as -1. The handler then panics, slicing to a negative
      end, when twice the page size is 2^64 + 1 less the number of keys, and else answers an empty page. */
  lemma MiscountedPage<T>(list: seq<T>, page: int, pageSize: int)
    requires |list| < TWO_64 / 4 && pageSize <= MAX_INT && !CountsRight(|list|, EffectiveSize(pageSize))
    ensures var size := EffectiveSize(pageSize);
            GetPage(list, page, pageSize) ==
            if 2 * size == TWO_64 - |list| + 1 then Panics else Listing([], |list|, -1, size, -1)
  {
    var n, size := |list|, EffectiveSize(pageSize);
    CountOverflows(n, size);
    var start := Wrap(-2 * size);
    assert start == TWO_64 - 2 * size;
    assert start >= n - 1;
  }

  /** Three keys and the largest page size. */
  lemma LargestPagePanics<T>(a: T, b: T, c: T, page: int)
    ensures GetPage([a, b, c], page, MAX_INT).Panics?
  {
    MiscountedPage([a, b, c], page, MAX_INT);
  }

  // Building the list

  datatype KeyStatus = KeyStatus(index: nat, status: int, disabledTime: int, reason: string, preview: seq<Byte>)

  /** The UTF-8 bytes of a character. */
  function CharBytes(c: char): seq<Byte> {
    var n := c as int;
    if n < 0x80 then [n]
    else if n < 0x800 then [0xC0 + n / 0x40, 0x80 + n % 0x40]
    else if n < 0x1_0000 then [0xE0 + n / 0x1000, 0x80 + n / 0x40 % 0x40, 0x80 + n % 0x40]
    else [0xF0 + n / 0x4_0000, 0x80 + n / 0x1000 % 0x40, 0x80 + n / 0x40 % 0x40, 0x80 + n % 0x40]
  }

  function TextBytes(s: string): seq<Byte> {
    if s == "" then [] else CharBytes(s[0]) + TextBytes(s[1..])
  }

  const ELLIPSIS: seq<Byte> := [0x2E, 0x2E, 0x2E]

  /** The first ten bytes of a key, which may cut a character. */
  function Preview(key: string): seq<Byte> {
    var bytes := TextBytes(key);
    if |bytes| > 10 then bytes[..10] + ELLIPSIS else bytes
  }

  function Shown(e: Entry, i: nat): KeyStatus {
    KeyStatus(i, e.status,
              if e.status != ENABLED && e.time.Some? then e.time.value else 0,
              if e.status != ENABLED && e.reason.Some? then e.reason.value else "",
              Preview(e.key))
  }

  function ShowAll(es: seq<Entry>): seq<KeyStatus> {
    seq(|es|, i requires 0 <= i < |es| => Shown(es[i], i))
  }

  function Matching(all: seq<KeyStatus>, wanted: Option<int>): seq<KeyStatus> {
    if wanted.None? || all == [] then all
    else
      var n := |all| - 1;
      Matching(all[..n], wanted) + if all[n].status == wanted.value then [all[n]] else []
  }

  function CountStatus(es: seq<Entry>, status: int): nat {
    if es == [] then 0
    else CountStatus(es[..|es| - 1], status) + if es[|es| - 1].status == status then 1 else 0
  }

  /** The three counters add up to the number of keys exactly when no key has another status. */
  lemma {:induction false} CountsSum(es: seq<Entry>)
    ensures var total := CountStatus(es, ENABLED) + CountStatus(es, MANUALLY_DISABLED) + CountStatus(es, AUTO_DISABLED);
            && total <= |es|
            && (total == |es| <==> forall i :: 0 <= i < |es| ==> ENABLED <= es[i].status <= AUTO_DISABLED)
    decreases |es|
  {
    if es != [] {
      CountsSum(es[..|es| - 1]);
    }
  }

  predicate Ordered(list: seq<KeyStatus>) {
    forall i, j :: 0 <= i < j < |list| ==> list[i].index < list[j].index
  }

  /** A filtered listing holds exactly the matching keys, in key order. */
  lemma {:induction false} MatchingMembers(all: seq<KeyStatus>, status: int)
    requires Ordered(all)
    ensures forall k :: k in Matching(all, Some(status)) <==> k in all && k.status == status
    ensures Ordered(Matching(all, Some(status)))
    decreases |all|
  {
    if all != [] {
      var n := |all| - 1;
      MatchingMembers(all[..n], status);
      assert all == all[..n] + [all[n]];
      OrderedExtend(all, Matching(all[..n], Some(status)));
    }
  }

  lemma OrderedExtend(all: seq<KeyStatus>, some: seq<KeyStatus>)
    requires all != [] && Ordered(all) && Ordered(some)
    requires forall k :: k in some ==> k in all[..|all| - 1]
    ensures Ordered(some + [all[|all| - 1]])
  {
    forall i | 0 <= i < |some| ensures some[i].index < all[|all| - 1].index {
      assert some[i] in some;
      assert some[i] in all[..|all| - 1];
    }
  }

  lemma ShowNext(es: seq<Entry>, i: nat)
    requires i < |es|
    ensures ShowAll(es[..i + 1]) == ShowAll(es[..i]) + [Shown(es[i], i)]
  {
  }

  lemma CountNext(es: seq<Entry>, i: nat, status: int)
    requires i < |es|
    ensures CountStatus(es[..i + 1], status) == CountStatus(es[..i], status) + if es[i].status == status then 1 else 0
  {
    assert es[..i + 1][..i] == es[..i];
  }

  /** The line shown for one key. */
  method ShowKey(key: string, i: nat, s: int, time: map<int, int>, reason: map<int, string>) returns (k: KeyStatus)
    ensures k == Shown(Entry(key, s, Find(time, i), Find(reason, i)), i)
  {
    var disabledTime, why := 0, "";
    if s != ENABLED {
      if i in time {
        disabledTime := time[i];
      }
      if i in reason {
        why := reason[i];
      }
    }
    k := KeyStatus(i, s, disabledTime, why, Preview(key));
  }

  method BuildStatusList(keys: seq<string>, status: map<int, int>, time: map<int, int>, reason: map<int, string>)
    returns (all: seq<KeyStatus>, enabled: nat, manual: nat, auto: nat)
    ensures var es := View(keys, status, time, reason);
            && all == ShowAll(es)
            && enabled == CountStatus(es, ENABLED)
            && manual == CountStatus(es, MANUALLY_DISABLED)
            && auto == CountStatus(es, AUTO_DISABLED)
  {
    all, enabled, manual, auto := [], 0, 0, 0;
    ghost var es := View(keys, status, time, reason);
    for i := 0 to |keys|
      invariant all == ShowAll(es[..i])
      invariant enabled == CountStatus(es[..i], ENABLED)
      invariant manual == CountStatus(es[..i], MANUALLY_DISABLED)
      invariant auto == CountStatus(es[..i], AUTO_DISABLED)
    {
      ShowNext(es, i);
      CountNext(es, i, ENABLED);
      CountNext(es, i, MANUALLY_DISABLED);
      CountNext(es, i, AUTO_DISABLED);
      var s := if i in status then status[i] else ENABLED;
      assert es[i] == Entry(keys[i], s, Find(time, i), Find(reason, i));
      if s == ENABLED {
        enabled := enabled + 1;
      } else if s == MANUALLY_DISABLED {
        manual := manual + 1;
      } else if s == AUTO_DISABLED {
        auto := auto + 1;
      }
      var shown := ShowKey(keys[i], i, s, time, reason);
      all := all + [shown];
    }
    assert es[..|keys|] == es;
  }

  method FilterStatus(all: seq<KeyStatus>, wanted: Option<int>) returns (r: seq<KeyStatus>)
    ensures r == Matching(all, wanted)
  {
    if wanted.None? {
      return all;
    }
    r := [];
    for i := 0 to |all|
      invariant r == Matching(all[..i], wanted)
    {
      assert all[..i + 1][..i] == all[..i];
      if all[i].status == wanted.value {
        r := r + [all[i]];
      }
    }
    assert all[..|all|] == all;
  }

  /** get_key_status. */
  method GetKeyStatus(keys: seq<string>, status: map<int, int>, time: map<int, int>, reason: map<int, string>,
                      wanted: Option<int>, page: int, pageSize: int)
    returns (r: Listing<KeyStatus>, enabled: nat, manual: nat, auto: nat)
    ensures var es := View(keys, status, time, reason);
            && r == GetPage(Matching(ShowAll(es), wanted), page, pageSize)
            && enabled == CountStatus(es, ENABLED)
            && manual == CountStatus(es, MANUALLY_DISABLED)
            && auto == CountStatus(es, AUTO_DISABLED)
  {
    var all;
    all, enabled, manual, auto := BuildStatusList(keys, status, time, reason);
    var list := FilterStatus(all, wanted);
    r := GetPage(list, page, pageSize);
  }
}
