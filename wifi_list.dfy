/**
 * The list of networks offered on the WiFi setup page: `getWifiList` keeps
 * the five strongest distinct SSIDs of a scan in two fixed arrays, sorts them
 * by signal strength and joins the visible names with ';'; `getWifiOptions`
 * turns that list back into HTML options.
 */
module WifiList {
  import opened Wrappers
  import opened Text

  newtype int32 = x: int | -0x8000_0000 <= x < 0x8000_0000

  /** Marks an empty slot; no network with this strength is ever kept. */
  const INT32_MIN: int32 := -0x8000_0000
  /** Number of slots. */
  const TOP_K: nat := 5

  /** One scan result: `WiFi.SSID(i)` and `WiFi.RSSI(i)`. A hidden network has the empty SSID. */
  datatype Network = Network(ssid: string, rssi: int32)

  /** Slots hold scan entries below `n` with their own strength, and no two filled slots share an SSID. */
  ghost predicate SlotsOk(scan: seq<Network>, n: nat, idx: seq<int>, rs: seq<int32>)
  {
    && |idx| == TOP_K && |rs| == TOP_K && n <= |scan|
    && (forall j :: 0 <= j < TOP_K && rs[j] != INT32_MIN ==> 0 <= idx[j] < n && rs[j] == scan[idx[j]].rssi)
    && (forall j, j' :: 0 <= j < j' < TOP_K && rs[j] != INT32_MIN && rs[j'] != INT32_MIN ==>
          scan[idx[j]].ssid != scan[idx[j']].ssid)
  }

  /**
   * Entry `p` is accounted for: its SSID is kept with at least its strength,
   * or every slot is filled with a network at least as strong.
   */
  ghost predicate Covered(scan: seq<Network>, idx: seq<int>, rs: seq<int32>, p: nat)
  {
    && p < |scan| && |idx| == TOP_K && |rs| == TOP_K
    && ((exists j :: 0 <= j < TOP_K && rs[j] != INT32_MIN && 0 <= idx[j] < |scan| &&
                     scan[idx[j]].ssid == scan[p].ssid && rs[j] >= scan[p].rssi)
        || (forall j :: 0 <= j < TOP_K ==> rs[j] != INT32_MIN && rs[j] >= scan[p].rssi))
  }

  /** The slots after the first `n` entries of the scan. */
  ghost predicate Pool(scan: seq<Network>, n: nat, idx: seq<int>, rs: seq<int32>)
  {
    && SlotsOk(scan, n, idx, rs)
    && forall p {:trigger Covered(scan, idx, rs, p)} :: 0 <= p < n && scan[p].rssi != INT32_MIN ==> Covered(scan, idx, rs, p)
  }

  /** While the slots are being filled, the filled ones are the first `cnt`. */
  ghost predicate Prefix(rs: seq<int32>, cnt: nat)
  {
    cnt <= TOP_K && |rs| == TOP_K && forall j :: 0 <= j < TOP_K ==> (rs[j] != INT32_MIN <==> j < cnt)
  }

  /** `m` is the first slot of least strength. */
  ghost predicate FirstMin(rs: seq<int32>, m: int)
  {
    && 0 <= m < |rs|
    && (forall j :: 0 <= j < |rs| ==> rs[m] <= rs[j])
    && (forall j :: 0 <= j < m ==> rs[j] > rs[m])
  }

  /**
   * What the list promises: at most five entries of the scan, strongest
   * first, with distinct SSIDs, and every network of the scan either kept
   * under its SSID at no less strength or beaten by all five kept ones.
   */
  ghost predicate TopNetworks(scan: seq<Network>, chosen: seq<int>)
  {
    && |chosen| <= TOP_K
    && (forall k :: 0 <= k < |chosen| ==> 0 <= chosen[k] < |scan| && scan[chosen[k]].rssi != INT32_MIN)
    && (forall k, k' :: 0 <= k < k' < |chosen| ==>
          scan[chosen[k]].rssi >= scan[chosen[k']].rssi && scan[chosen[k]].ssid != scan[chosen[k']].ssid)
    && (forall p {:trigger Accounted(scan, chosen, p)} :: 0 <= p < |scan| && scan[p].rssi != INT32_MIN ==>
          Accounted(scan, chosen, p))
  }

  /** Entry `p` is listed under its SSID at no less strength, or all five listed networks are at least as strong. */
  ghost predicate Accounted(scan: seq<Network>, chosen: seq<int>, p: int)
  {
    && 0 <= p < |scan|
    && (forall k :: 0 <= k < |chosen| ==> 0 <= chosen[k] < |scan|)
    && ((exists k :: 0 <= k < |chosen| && scan[chosen[k]].ssid == scan[p].ssid && scan[chosen[k]].rssi >= scan[p].rssi)
        || (|chosen| == TOP_K && forall k :: 0 <= k < |chosen| ==> scan[chosen[k]].rssi >= scan[p].rssi))
  }

  /** The SSIDs of the chosen entries, in order. */
  function SsidsOf(scan: seq<Network>, chosen: seq<int>): (names: seq<string>)
    requires forall k :: 0 <= k < |chosen| ==> 0 <= chosen[k] < |scan|
    ensures |names| == |chosen|
    ensures forall k :: 0 <= k < |chosen| ==> names[k] == scan[chosen[k]].ssid
  {
    seq(|chosen|, k requires 0 <= k < |chosen| => scan[chosen[k]].ssid)
  }

  /** The network list text: the visible SSIDs, ';' between consecutive ones. */
  function ListText(names: seq<string>): string
  {
    Join(NonEmpty(names), ';')
  }

  lemma ListTextSnoc(names: seq<string>, name: string)
    requires name != ""
    ensures ListText(names + [name]) == if ListText(names) == "" then name else ListText(names) + ";" + name
  {
    assert (names + [name])[..|names|] == names;
    var ne := NonEmpty(names);
    assert NonEmpty(names + [name]) == ne + [name];
    assert (ne + [name])[..|ne|] == ne;
    if |ne| > 0 {
      assert |Join(ne, ';')| >= |ne[0]| > 0 by {
        JoinLength(ne, ';');
      }
    }
  }

  lemma ListTextSkip(names: seq<string>)
    ensures ListText(names + [""]) == ListText(names)
  {
    assert (names + [""])[..|names|] == names;
    assert NonEmpty(names + [""]) == NonEmpty(names);
  }

  lemma {:induction false} JoinLength(fields: seq<string>, sep: char)
    requires |fields| > 0
    ensures |Join(fields, sep)| >= |fields[0]|
    decreases |fields|
  {
    if |fields| > 1 {
      JoinLength(fields[..|fields| - 1], sep);
    }
  }

  /** The index of the first slot of least strength (the first loop of each scan step). */
  method MinSlot(rs: array<int32>) returns (m: int)
    requires rs.Length == TOP_K
    ensures FirstMin(rs[..], m)
  {
    m := 0;
    var j := 0;
    while j < TOP_K
      invariant 0 <= j <= TOP_K && 0 <= m < TOP_K && m <= j
      invariant forall t :: 0 <= t < j ==> rs[m] <= rs[t]
      invariant forall t :: 0 <= t < m ==> rs[t] > rs[m]
    {
      if rs[j] < rs[m] {
        m := j;
      }
      j := j + 1;
    }
  }

  /** Look for `ssid` among the filled slots, stopping at the first empty one. */
  method FindSsid(scan: seq<Network>, n: nat, idx: array<int>, rs: array<int32>, ghost cnt: nat, ssid: string)
    returns (found: bool, j: int)
    requires SlotsOk(scan, n, idx[..], rs[..]) && Prefix(rs[..], cnt)
    ensures found ==> 0 <= j < TOP_K && rs[j] != INT32_MIN && scan[idx[j]].ssid == ssid
    ensures !found ==> forall t :: 0 <= t < TOP_K && rs[t] != INT32_MIN ==> scan[idx[t]].ssid != ssid
  {
    j := 0;
    found := false;
    while j < TOP_K
      invariant 0 <= j <= TOP_K
      invariant forall t :: 0 <= t < j ==> rs[t] != INT32_MIN && scan[idx[t]].ssid != ssid
    {
      if rs[j] == INT32_MIN {
        break;
      }
      if ssid == scan[idx[j]].ssid {
        found := true;
        return;
      }
      j := j + 1;
    }
    assert j == TOP_K || rs[j] == INT32_MIN;
    assert !found;
  }

  /** While a slot is free, the weakest slot is the first free one. */
  lemma MinIsFirstFree(rs: seq<int32>, cnt: nat, m: int)
    requires Prefix(rs, cnt) && FirstMin(rs, m)
    ensures cnt < TOP_K ==> m == cnt && rs[m] == INT32_MIN
  {
    if cnt < TOP_K {
      assert rs[m] <= rs[cnt] == INT32_MIN;
    }
  }

  /** A network no stronger than the weakest slot leaves the slots as they are. */
  lemma SkipKeeps(scan: seq<Network>, i: nat, idx: seq<int>, rs: seq<int32>, cnt: nat, m: int)
    requires i < |scan| && Pool(scan, i, idx, rs) && Prefix(rs, cnt) && FirstMin(rs, m)
    requires scan[i].rssi <= rs[m]
    ensures Pool(scan, i + 1, idx, rs)
  {
    MinIsFirstFree(rs, cnt, m);
    if scan[i].rssi != INT32_MIN {
      assert cnt == TOP_K;
      assert forall j :: 0 <= j < TOP_K ==> rs[j] != INT32_MIN && rs[j] >= scan[i].rssi;
      assert Covered(scan, idx, rs, i);
    }
    assert forall p :: 0 <= p < i + 1 && scan[p].rssi != INT32_MIN ==> Covered(scan, idx, rs, p) by {
      forall p | 0 <= p < i + 1 && scan[p].rssi != INT32_MIN
        ensures Covered(scan, idx, rs, p)
      {
        if p < i {
          assert Covered(scan, idx, rs, p);
        }
      }
    }
  }

  /** A network whose SSID is already kept refreshes that slot when it is stronger. */
  lemma FoundKeeps(scan: seq<Network>, i: nat, idx: seq<int>, rs: seq<int32>, cnt: nat, j: int)
    requires i < |scan| && Pool(scan, i, idx, rs) && Prefix(rs, cnt)
    requires 0 <= j < TOP_K && rs[j] != INT32_MIN && scan[idx[j]].ssid == scan[i].ssid
    ensures scan[i].rssi > rs[j] ==>
              Pool(scan, i + 1, idx[j := i], rs[j := scan[i].rssi]) && Prefix(rs[j := scan[i].rssi], cnt)
    ensures scan[i].rssi <= rs[j] ==> Pool(scan, i + 1, idx, rs)
  {
    if scan[i].rssi > rs[j] {
      var idx', rs' := idx[j := i], rs[j := scan[i].rssi];
      forall p | 0 <= p < i + 1 && scan[p].rssi != INT32_MIN
        ensures Covered(scan, idx', rs', p)
      {
        if p == i {
          assert rs'[j] != INT32_MIN && scan[idx'[j]].ssid == scan[p].ssid && rs'[j] >= scan[p].rssi;
        } else {
          assert Covered(scan, idx, rs, p);
          if w :| 0 <= w < TOP_K && rs[w] != INT32_MIN && 0 <= idx[w] < |scan| &&
                  scan[idx[w]].ssid == scan[p].ssid && rs[w] >= scan[p].rssi {
            assert rs'[w] != INT32_MIN && 0 <= idx'[w] < |scan| &&
                   scan[idx'[w]].ssid == scan[p].ssid && rs'[w] >= scan[p].rssi;
          } else {
            assert forall t :: 0 <= t < TOP_K ==> rs'[t] != INT32_MIN && rs'[t] >= scan[p].rssi;
          }
        }
      }
      assert SlotsOk(scan, i + 1, idx', rs');
    } else {
      forall p | 0 <= p < i + 1 && scan[p].rssi != INT32_MIN
        ensures Covered(scan, idx, rs, p)
      {
        if p == i {
          assert rs[j] != INT32_MIN && scan[idx[j]].ssid == scan[p].ssid && rs[j] >= scan[p].rssi;
        }
      }
    }
  }

  /** Inserting a stronger network with a new SSID keeps an earlier entry accounted for. */
  lemma InsertCovers(scan: seq<Network>, i: nat, idx: seq<int>, rs: seq<int32>, cnt: nat, m: int, p: nat)
    requires i < |scan| && SlotsOk(scan, i, idx, rs) && Prefix(rs, cnt) && FirstMin(rs, m)
    requires scan[i].rssi > rs[m]
    requires p < i && Covered(scan, idx, rs, p)
    ensures Covered(scan, idx[m := i], rs[m := scan[i].rssi], p)
  {
    var idx', rs' := idx[m := i], rs[m := scan[i].rssi];
    MinIsFirstFree(rs, cnt, m);
    if w :| 0 <= w < TOP_K && rs[w] != INT32_MIN && 0 <= idx[w] < |scan| &&
            scan[idx[w]].ssid == scan[p].ssid && rs[w] >= scan[p].rssi {
      if w == m {
        assert cnt == TOP_K;
        assert forall t :: 0 <= t < TOP_K ==> rs'[t] != INT32_MIN && rs'[t] >= scan[p].rssi;
      } else {
        assert rs'[w] != INT32_MIN && 0 <= idx'[w] < |scan| &&
               scan[idx'[w]].ssid == scan[p].ssid && rs'[w] >= scan[p].rssi;
      }
    } else {
      assert forall t :: 0 <= t < TOP_K ==> rs'[t] != INT32_MIN && rs'[t] >= scan[p].rssi;
    }
  }

  /** A stronger network with a new SSID takes the weakest slot, which is the first empty one while any is left. */
  lemma InsertKeeps(scan: seq<Network>, i: nat, idx: seq<int>, rs: seq<int32>, cnt: nat, m: int)
    requires i < |scan| && Pool(scan, i, idx, rs) && Prefix(rs, cnt) && FirstMin(rs, m)
    requires scan[i].rssi > rs[m]
    requires forall t :: 0 <= t < TOP_K && rs[t] != INT32_MIN ==> scan[idx[t]].ssid != scan[i].ssid
    ensures Pool(scan, i + 1, idx[m := i], rs[m := scan[i].rssi])
    ensures Prefix(rs[m := scan[i].rssi], if cnt < TOP_K then cnt + 1 else TOP_K)
  {
    var idx', rs' := idx[m := i], rs[m := scan[i].rssi];
    MinIsFirstFree(rs, cnt, m);
    forall p | 0 <= p < i + 1 && scan[p].rssi != INT32_MIN
      ensures Covered(scan, idx', rs', p)
    {
      if p == i {
        assert rs'[m] != INT32_MIN && scan[idx'[m]].ssid == scan[p].ssid && rs'[m] >= scan[p].rssi;
      } else {
        InsertCovers(scan, i, idx, rs, cnt, m, p);
      }
    }
    assert SlotsOk(scan, i + 1, idx', rs');
  }

  ghost predicate Descending(rs: seq<int32>)
  {
    forall a, b :: 0 <= a < b < |rs| ==> rs[a] >= rs[b]
  }

  /** The slots as (scan index, strength) pairs. */
  function Pairs(idx: seq<int>, rs: seq<int32>): (ps: seq<(int, int32)>)
    requires |idx| == |rs|
    ensures |ps| == |idx| && forall j :: 0 <= j < |ps| ==> ps[j] == (idx[j], rs[j])
  {
    seq(|idx|, j requires 0 <= j < |idx| => (idx[j], rs[j]))
  }

  /** Slot `j` after exchanging slots `a` and `b`. */
  function Swapped(j: int, a: int, b: int): int
  {
    if j == a then b else if j == b then a else j
  }

  /** Exchanging two slots (both arrays together) keeps the slot contents valid and distinct. */
  lemma SwapSlotsOk(scan: seq<Network>, n: nat, idx: seq<int>, rs: seq<int32>, a: int, b: int)
    requires SlotsOk(scan, n, idx, rs) && 0 <= a < TOP_K && 0 <= b < TOP_K
    ensures SlotsOk(scan, n, idx[a := idx[b]][b := idx[a]], rs[a := rs[b]][b := rs[a]])
  {
    var idx', rs' := idx[a := idx[b]][b := idx[a]], rs[a := rs[b]][b := rs[a]];
    forall j | 0 <= j < TOP_K
      ensures idx'[j] == idx[Swapped(j, a, b)] && rs'[j] == rs[Swapped(j, a, b)]
    {
    }
    forall j, j' | 0 <= j < j' < TOP_K && rs'[j] != INT32_MIN && rs'[j'] != INT32_MIN
      ensures scan[idx'[j]].ssid != scan[idx'[j']].ssid
    {
      var k, k' := Swapped(j, a, b), Swapped(j', a, b);
      if k < k' {
        assert scan[idx[k]].ssid != scan[idx[k']].ssid;
      } else {
        assert scan[idx[k']].ssid != scan[idx[k]].ssid;
      }
    }
  }

  /** Exchanging two slots keeps an entry accounted for. */
  lemma SwapCovers(scan: seq<Network>, idx: seq<int>, rs: seq<int32>, a: int, b: int, p: nat)
    requires Covered(scan, idx, rs, p) && 0 <= a < TOP_K && 0 <= b < TOP_K
    ensures Covered(scan, idx[a := idx[b]][b := idx[a]], rs[a := rs[b]][b := rs[a]], p)
  {
    var idx', rs' := idx[a := idx[b]][b := idx[a]], rs[a := rs[b]][b := rs[a]];
    if w :| 0 <= w < TOP_K && rs[w] != INT32_MIN && 0 <= idx[w] < |scan| &&
            scan[idx[w]].ssid == scan[p].ssid && rs[w] >= scan[p].rssi {
      var w' := Swapped(w, a, b);
      assert rs'[w'] != INT32_MIN && 0 <= idx'[w'] < |scan| &&
             scan[idx'[w']].ssid == scan[p].ssid && rs'[w'] >= scan[p].rssi;
    } else {
      forall t | 0 <= t < TOP_K
        ensures rs'[t] != INT32_MIN && rs'[t] >= scan[p].rssi
      {
        assert rs'[t] == rs[Swapped(t, a, b)];
      }
    }
  }

  lemma SwapKeeps(scan: seq<Network>, n: nat, idx: seq<int>, rs: seq<int32>, a: int, b: int)
    requires Pool(scan, n, idx, rs) && 0 <= a < TOP_K && 0 <= b < TOP_K
    ensures Pool(scan, n, idx[a := idx[b]][b := idx[a]], rs[a := rs[b]][b := rs[a]])
  {
    SwapSlotsOk(scan, n, idx, rs, a, b);
    forall p | 0 <= p < n && scan[p].rssi != INT32_MIN
      ensures Covered(scan, idx[a := idx[b]][b := idx[a]], rs[a := rs[b]][b := rs[a]], p)
    {
      SwapCovers(scan, idx, rs, a, b, p);
    }
  }

  /** Exchanging two slots exchanges their pairs. */
  lemma SwapPairs(idx: seq<int>, rs: seq<int32>, a: int, b: int)
    requires |idx| == |rs| && 0 <= a < |idx| && 0 <= b < |idx|
    ensures multiset(Pairs(idx[a := idx[b]][b := idx[a]], rs[a := rs[b]][b := rs[a]])) == multiset(Pairs(idx, rs))
  {
    var ps := Pairs(idx, rs);
    assert Pairs(idx[a := idx[b]][b := idx[a]], rs[a := rs[b]][b := rs[a]]) == ps[a := ps[b]][b := ps[a]];
  }

  /** One exchange of the sort, on both arrays. */
  method SwapSlots(ghost scan: seq<Network>, ghost n: nat, idx: array<int>, rs: array<int32>, a: int, b: int)
    requires Pool(scan, n, idx[..], rs[..]) && 0 <= a < TOP_K && 0 <= b < TOP_K
    modifies idx, rs
    ensures idx[..] == old(idx[..])[a := old(idx[b])][b := old(idx[a])]
    ensures rs[..] == old(rs[..])[a := old(rs[b])][b := old(rs[a])]
    ensures Pool(scan, n, idx[..], rs[..])
    ensures multiset(Pairs(idx[..], rs[..])) == multiset(Pairs(old(idx[..]), old(rs[..])))
  {
    SwapKeeps(scan, n, idx[..], rs[..], a, b);
    SwapPairs(idx[..], rs[..], a, b);
    rs[a], rs[b] := rs[b], rs[a];
    idx[a], idx[b] := idx[b], idx[a];
  }

  /** The first `i` slots are in place: each is at least as strong as every later one. */
  ghost predicate SortedPrefix(rs: seq<int32>, i: int)
  {
    forall a, b :: 0 <= a < i && a < b < |rs| ==> rs[a] >= rs[b]
  }

  /** Slot `i` is at least as strong as the slots strictly between `i` and `j`. */
  ghost predicate HeadMax(rs: seq<int32>, i: int, j: int)
  {
    forall t :: 0 <= i < t < j && t < |rs| ==> rs[i] >= rs[t]
  }

  /** One step of the inner loop of the sort keeps the placed prefix and extends the head's lead. */
  lemma SortStep(rs: seq<int32>, i: int, j: int)
    requires 0 <= i < j < |rs| && SortedPrefix(rs, i) && HeadMax(rs, i, j)
    ensures rs[i] < rs[j] ==> SortedPrefix(rs[i := rs[j]][j := rs[i]], i) && HeadMax(rs[i := rs[j]][j := rs[i]], i, j + 1)
    ensures rs[i] >= rs[j] ==> HeadMax(rs, i, j + 1)
  {
    if rs[i] < rs[j] {
      var rs' := rs[i := rs[j]][j := rs[i]];
      forall a, b | 0 <= a < i && a < b < |rs'|
        ensures rs'[a] >= rs'[b]
      {
        assert rs'[b] == rs[Swapped(b, i, j)];
      }
    }
  }

  /** The exchange sort of `getWifiList`: strongest slot first, keeping each slot's pair. */
  method SortSlots(ghost scan: seq<Network>, ghost n: nat, idx: array<int>, rs: array<int32>)
    requires Pool(scan, n, idx[..], rs[..])
    modifies idx, rs
    ensures Pool(scan, n, idx[..], rs[..])
    ensures Descending(rs[..])
    ensures multiset(Pairs(idx[..], rs[..])) == multiset(Pairs(old(idx[..]), old(rs[..])))
  {
    var i := 0;
    while i < TOP_K - 1
      invariant 0 <= i <= TOP_K - 1
      invariant Pool(scan, n, idx[..], rs[..]) && SortedPrefix(rs[..], i)
      invariant multiset(Pairs(idx[..], rs[..])) == multiset(Pairs(old(idx[..]), old(rs[..])))
    {
      var j := i + 1;
      while j < TOP_K
        invariant i + 1 <= j <= TOP_K
        invariant Pool(scan, n, idx[..], rs[..]) && SortedPrefix(rs[..], i) && HeadMax(rs[..], i, j)
        invariant multiset(Pairs(idx[..], rs[..])) == multiset(Pairs(old(idx[..]), old(rs[..])))
      {
        SortStep(rs[..], i, j);
        if rs[i] < rs[j] {
          SwapSlots(scan, n, idx, rs, i, j);
        }
        j := j + 1;
      }
      assert SortedPrefix(rs[..], i + 1);
      i := i + 1;
    }
  }

  /** With the filled slots first, an entry accounted for by the slots is accounted for by the list. */
  lemma PoolTopCovers(scan: seq<Network>, idx: seq<int>, rs: seq<int32>, c: nat, p: nat)
    requires Covered(scan, idx, rs, p) && c <= TOP_K
    requires forall t :: 0 <= t < TOP_K ==> (rs[t] != INT32_MIN <==> t < c)
    requires forall t :: 0 <= t < c ==> 0 <= idx[t] < |scan| && rs[t] == scan[idx[t]].rssi
    ensures Accounted(scan, idx[..c], p)
  {
    if w :| 0 <= w < TOP_K && rs[w] != INT32_MIN && 0 <= idx[w] < |scan| &&
            scan[idx[w]].ssid == scan[p].ssid && rs[w] >= scan[p].rssi {
      assert scan[idx[..c][w]].ssid == scan[p].ssid && scan[idx[..c][w]].rssi >= scan[p].rssi;
    } else {
      assert rs[TOP_K - 1] != INT32_MIN;
      assert forall k :: 0 <= k < c ==> scan[idx[..c][k]].rssi == rs[k];
    }
  }

  /** The first `c` sorted slots, as a list, are strongest first and have distinct SSIDs. */
  lemma PoolTopOrder(scan: seq<Network>, idx: seq<int>, rs: seq<int32>, c: nat)
    requires SlotsOk(scan, |scan|, idx, rs) && Descending(rs) && c <= TOP_K
    requires forall t :: 0 <= t < c ==> rs[t] != INT32_MIN
    ensures forall k :: 0 <= k < c ==> 0 <= idx[..c][k] < |scan| && scan[idx[..c][k]].rssi == rs[k]
    ensures forall k, k' :: 0 <= k < k' < c ==>
              scan[idx[..c][k]].rssi >= scan[idx[..c][k']].rssi && scan[idx[..c][k]].ssid != scan[idx[..c][k']].ssid
  {
    var chosen := idx[..c];
    forall k, k' | 0 <= k < k' < c
      ensures scan[chosen[k]].rssi >= scan[chosen[k']].rssi && scan[chosen[k]].ssid != scan[chosen[k']].ssid
    {
      assert rs[k] >= rs[k'];
    }
  }

  /** Sorted slots whose first `c` are the filled ones give the promised list. */
  lemma PoolTop(scan: seq<Network>, idx: seq<int>, rs: seq<int32>, c: nat)
    requires Pool(scan, |scan|, idx, rs) && Descending(rs) && c <= TOP_K
    requires forall t :: 0 <= t < TOP_K ==> (rs[t] != INT32_MIN <==> t < c)
    ensures TopNetworks(scan, idx[..c])
  {
    var chosen := idx[..c];
    PoolTopOrder(scan, idx, rs, c);
    forall p | 0 <= p < |scan| && scan[p].rssi != INT32_MIN
      ensures Accounted(scan, chosen, p)
    {
      assert Covered(scan, idx, rs, p);
      PoolTopCovers(scan, idx, rs, c, p);
    }
  }

  /** In sorted slots, the filled ones come first. */
  lemma FilledPrefix(rs: seq<int32>, c: nat)
    requires |rs| == TOP_K && Descending(rs) && c <= TOP_K
    requires c < TOP_K ==> rs[c] == INT32_MIN
    requires forall t :: 0 <= t < c ==> rs[t] != INT32_MIN
    ensures forall t :: 0 <= t < TOP_K ==> (rs[t] != INT32_MIN <==> t < c)
  {
    forall t | c < t < TOP_K
      ensures rs[t] == INT32_MIN
    {
      assert rs[c] >= rs[t];
    }
  }

  /** Appending one slot's SSID to the list text. */
  lemma SsidsOfSnoc(s: seq<Network>, idx: seq<int>, c: nat)
    requires c < |idx| && forall t :: 0 <= t <= c ==> 0 <= idx[t] < |s|
    ensures SsidsOf(s, idx[..c + 1]) == SsidsOf(s, idx[..c]) + [s[idx[c]].ssid]
  {
  }

  /** One iteration of the scan loop of `getWifiList`: entry `i` is weighed against the slots. */
  method ScanStep(s: seq<Network>, i: nat, idx: array<int>, rs: array<int32>, ghost cnt: nat) returns (ghost cnt': nat)
    requires i < |s| && Pool(s, i, idx[..], rs[..]) && Prefix(rs[..], cnt)
    modifies idx, rs
    ensures Pool(s, i + 1, idx[..], rs[..]) && Prefix(rs[..], cnt')
  {
    cnt' := cnt;
    var m := MinSlot(rs);
    var rssi := s[i].rssi;
    if rssi > rs[m] {
      var found, j := FindSsid(s, i, idx, rs, cnt, s[i].ssid);
      if found {
        FoundKeeps(s, i, idx[..], rs[..], cnt, j);
        if rssi > rs[j] {
          rs[j] := rssi;
          idx[j] := i;
        }
      } else {
        InsertKeeps(s, i, idx[..], rs[..], cnt, m);
        rs[m] := rssi;
        idx[m] := i;
        cnt' := if cnt < TOP_K then cnt + 1 else TOP_K;
      }
    } else {
      SkipKeeps(s, i, idx[..], rs[..], cnt, m);
    }
  }

  /** One step of the output loop: the list text grows by the next slot's SSID when it is visible. */
  lemma JoinStep(s: seq<Network>, idx: seq<int>, c: nat, list: string)
    requires c < |idx| && forall t :: 0 <= t <= c ==> 0 <= idx[t] < |s|
    requires list == ListText(SsidsOf(s, idx[..c]))
    ensures var ssid := s[idx[c]].ssid;
            ListText(SsidsOf(s, idx[..c + 1])) ==
              if ssid == "" then list else if list == "" then ssid else list + ";" + ssid
  {
    SsidsOfSnoc(s, idx, c);
    var ssid := s[idx[c]].ssid;
    if ssid != "" {
      ListTextSnoc(SsidsOf(s, idx[..c]), ssid);
    } else {
      ListTextSkip(SsidsOf(s, idx[..c]));
    }
  }

  /** The output loop of `getWifiList`: walk the slots up to the first empty one, joining visible SSIDs. */
  method JoinSlots(s: seq<Network>, idx: array<int>, rs: array<int32>) returns (list: string, c: nat)
    requires idx.Length == TOP_K && rs.Length == TOP_K
    requires forall t :: 0 <= t < TOP_K && rs[t] != INT32_MIN ==> 0 <= idx[t] < |s|
    ensures c <= TOP_K && (c < TOP_K ==> rs[c] == INT32_MIN)
    ensures forall t :: 0 <= t < c ==> rs[t] != INT32_MIN && 0 <= idx[t] < |s|
    ensures list == ListText(SsidsOf(s, idx[..c]))
  {
    list := "";
    c := 0;
    while c < TOP_K && rs[c] != INT32_MIN
      invariant 0 <= c <= TOP_K
      invariant forall t :: 0 <= t < c ==> rs[t] != INT32_MIN && 0 <= idx[t] < |s|
      invariant list == ListText(SsidsOf(s, idx[..c]))
    {
      var ssid := s[idx[c]].ssid;
      JoinStep(s, idx[..], c, list);
      if ssid != "" {
        if list != "" {
          list := list + ";";
        }
        list := list + ssid;
      }
      c := c + 1;
    }
  }

  /**
   * `getWifiList`: keep the five strongest distinct SSIDs of a finished scan
   * and join the visible ones, strongest first. An unfinished scan (`None`)
   * leaves the previous list alone.
   */
  method GetWifiList(scan: Option<seq<Network>>, previous: string) returns (list: string, chosen: seq<int>)
    ensures scan.None? ==> list == previous && chosen == []
    ensures scan.Some? ==> TopNetworks(scan.value, chosen) && list == ListText(SsidsOf(scan.value, chosen))
  {
    if scan.None? {
      return previous, [];
    }
    var s := scan.value;
    var idx := new int[TOP_K](_ => 0);
    var rs := new int32[TOP_K](_ => INT32_MIN);
    ghost var cnt: nat := 0;
    var i := 0;
    while i < |s|
      invariant 0 <= i <= |s|
      invariant Pool(s, i, idx[..], rs[..]) && Prefix(rs[..], cnt)
    {
      cnt := ScanStep(s, i, idx, rs, cnt);
      i := i + 1;
    }
    SortSlots(s, |s|, idx, rs);
    var c;
    list, c := JoinSlots(s, idx, rs);
    FilledPrefix(rs[..], c);
    PoolTop(s, idx[..], rs[..], c);
    chosen := idx[..c];
  }

  /** Every strong enough network of the scan is matched or beaten by the first entry of the list. */
  lemma StrongestListedFirst(scan: seq<Network>, chosen: seq<int>, p: nat)
    requires TopNetworks(scan, chosen)
    requires p < |scan| && scan[p].rssi != INT32_MIN
    ensures |chosen| > 0 && scan[chosen[0]].rssi >= scan[p].rssi
  {
    assert Accounted(scan, chosen, p);
    if k :| 0 <= k < |chosen| && scan[chosen[k]].ssid == scan[p].ssid && scan[chosen[k]].rssi >= scan[p].rssi {
      if k > 0 {
        assert scan[chosen[0]].rssi >= scan[chosen[k]].rssi;
      }
    }
  }

  /** The option offered for one network. */
  function OptionTag(ssid: string): string
  {
    "<option value='" + ssid + "'>" + ssid + "</option>"
  }

  /** The blank option that heads a non-empty list of networks. */
  const BLANK_OPTION: string := "<option value=''></option>"

  /** Options for the non-empty fields among the first `n` fields of the list. */
  function FieldOptions(list: string, n: nat): string
  {
    if n == 0 then ""
    else
      var ssid := FieldAt(list, ';', n - 1);
      FieldOptions(list, n - 1) + (if ssid == "" then "" else OptionTag(ssid))
  }

  /** The `<select>` contents for a network list: nothing if its first field is empty. */
  function WifiOptions(list: string): string
  {
    if FieldAt(list, ';', 0) == "" then "" else BLANK_OPTION + FieldOptions(list, TOP_K)
  }

  /** Options for a sequence of networks, in order. */
  function OptionsOf(names: seq<string>): string
  {
    if |names| == 0 then "" else OptionsOf(names[..|names| - 1]) + OptionTag(names[|names| - 1])
  }

  /** `getWifiOptions`, without sending the result to the browser. */
  method GetWifiOptions(list: string) returns (options: string)
    ensures options == WifiOptions(list)
  {
    options := "";
    var first := GetValueBySeparator(list, ';', 0);
    if first != "" {
      options := BLANK_OPTION;
      var i := 0;
      while i < TOP_K
        invariant 0 <= i <= TOP_K
        invariant options == BLANK_OPTION + FieldOptions(list, i)
      {
        var ssid := GetValueBySeparator(list, ';', i);
        FieldOptionsNext(list, i + 1);
        if ssid != "" {
          AppendAssoc(BLANK_OPTION, FieldOptions(list, i), OptionTag(ssid));
          options := options + OptionTag(ssid);
        }
        i := i + 1;
      }
    }
  }

  lemma OptionsOfPrefix(names: seq<string>, n: nat)
    requires 0 < n <= |names|
    ensures OptionsOf(names[..n]) == OptionsOf(names[..n - 1]) + OptionTag(names[n - 1])
  {
    assert names[..n][..n - 1] == names[..n - 1];
  }

  /** One more field: its option is added when it is non-empty. */
  lemma FieldOptionsNext(list: string, n: nat)
    requires n > 0
    ensures FieldAt(list, ';', n - 1) == "" ==> FieldOptions(list, n) == FieldOptions(list, n - 1)
    ensures FieldAt(list, ';', n - 1) != "" ==>
              FieldOptions(list, n) == FieldOptions(list, n - 1) + OptionTag(FieldAt(list, ';', n - 1))
  {
  }

  /** A list whose fields are exactly `names` gives one option per name among its first `n` fields. */
  lemma {:induction false} FieldOptionsOfFields(list: string, names: seq<string>, n: nat)
    requires forall k :: 0 <= k < |names| ==> names[k] != "" && FieldAt(list, ';', k) == names[k]
    requires forall k: nat {:trigger FieldAt(list, ';', k)} :: |names| <= k ==> FieldAt(list, ';', k) == ""
    ensures n <= |names| ==> FieldOptions(list, n) == OptionsOf(names[..n])
    ensures n > |names| ==> FieldOptions(list, n) == OptionsOf(names)
  {
    if n == 0 {
      assert names[..0] == [];
    } else {
      FieldOptionsOfFields(list, names, n - 1);
      FieldOptionsNext(list, n);
      if n <= |names| {
        assert FieldAt(list, ';', n - 1) == names[n - 1];
        OptionsOfPrefix(names, n);
      } else {
        assert FieldAt(list, ';', n - 1) == "";
        if n - 1 == |names| {
          assert names[..n - 1] == names;
        }
      }
    }
  }

  /** The first `n` fields of joined non-empty names give one option per name among them. */
  lemma FieldOptionsJoin(names: seq<string>, n: nat)
    requires |names| >= 1
    requires forall k :: 0 <= k < |names| ==> names[k] != "" && ';' !in names[k]
    ensures n <= |names| ==> FieldOptions(Join(names, ';'), n) == OptionsOf(names[..n])
    ensures n > |names| ==> FieldOptions(Join(names, ';'), n) == OptionsOf(names)
  {
    var list := Join(names, ';');
    forall k: nat
      ensures k < |names| ==> FieldAt(list, ';', k) == names[k]
      ensures |names| <= k ==> FieldAt(list, ';', k) == ""
    {
      FieldAtJoin(names, ';', k);
    }
    FieldOptionsOfFields(list, names, n);
  }

  lemma NonEmptyFrom(fields: seq<string>)
    ensures |NonEmpty(fields)| <= |fields|
    ensures forall k :: 0 <= k < |NonEmpty(fields)| ==> NonEmpty(fields)[k] in fields
  {
    if |fields| > 0 {
      NonEmptyFrom(fields[..|fields| - 1]);
      assert forall x :: x in fields[..|fields| - 1] ==> x in fields;
    }
  }

  /**
   * The options page shows exactly the visible networks of the list, each
   * once, strongest first, after a blank option, as long as no SSID contains
   * the ';' separator.
   */
  lemma ListOptions(scan: seq<Network>, chosen: seq<int>)
    requires TopNetworks(scan, chosen)
    requires forall k :: 0 <= k < |chosen| ==> ';' !in scan[chosen[k]].ssid
    ensures var names := NonEmpty(SsidsOf(scan, chosen));
            WifiOptions(ListText(SsidsOf(scan, chosen))) == if names == [] then "" else BLANK_OPTION + OptionsOf(names)
  {
    var names := NonEmpty(SsidsOf(scan, chosen));
    NonEmptyFrom(SsidsOf(scan, chosen));
    if names != [] {
      FieldAtJoin(names, ';', 0);
      FieldOptionsJoin(names, TOP_K);
      if |names| == TOP_K {
        assert names[..TOP_K] == names;
      }
    }
  }
}
