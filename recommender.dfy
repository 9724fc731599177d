/**
 * User-based collaborative filtering over bidding and wishlist behaviour, with a popularity
 * fallback (utils/recommender.py). The recommender is built once from a snapshot of the
 * database; recommendation queries read the live item table, given here as `catalog`.
 */
module Recommender {
  import opened Wrappers
  import opened Domain
  import opened Ranking
  import opened Profiles

  /** Python list of item rows whose primary keys are distinct. */
  predicate DistinctItemIds(items: seq<Item>)
  {
    forall i, j :: 0 <= i < j < |items| ==> items[i].itemId != items[j].itemId
  }

  predicate DistinctRecIds(recs: seq<ItemRecommendation>)
  {
    forall i, j :: 0 <= i < j < |recs| ==> recs[i].itemId != recs[j].itemId
  }

  /** An N x N matrix, the shape of `cosine_similarity` applied to N rows. */
  ghost predicate SquareMatrix(m: seq<seq<real>>, n: nat)
  {
    |m| == n && forall i :: 0 <= i < |m| ==> |m[i]| == n
  }

  /** In a table with distinct ids, the id index returns the row itself. */
  lemma {:induction false} ItemIndexOfMember(items: seq<Item>, it: Item)
    requires DistinctItemIds(items)
    requires it in items
    ensures it.itemId in ItemIndex(items) && ItemIndex(items)[it.itemId] == it
  {
    var init := items[..|items| - 1];
    var last := items[|items| - 1];
    assert items == init + [last];
    if it != last {
      assert it in init;
      var i :| 0 <= i < |init| && init[i] == it;
      assert items[i] == it;
      assert DistinctItemIds(init) by {
        forall a, b | 0 <= a < b < |init| ensures init[a].itemId != init[b].itemId {
          assert init[a] == items[a] && init[b] == items[b];
        }
      }
      ItemIndexOfMember(init, it);
      assert it.itemId != last.itemId;
    }
  }

  /** Distinct rows of a table with distinct ids have distinct ids. */
  lemma DistinctRowsDistinctIds(rows: seq<Item>, table: seq<Item>)
    requires DistinctItemIds(table) && Distinct(rows)
    requires forall i :: 0 <= i < |rows| ==> rows[i] in table
    ensures DistinctItemIds(rows)
  {
    forall i, j | 0 <= i < j < |rows|
      ensures rows[i].itemId != rows[j].itemId
    {
      ItemIndexOfMember(table, rows[i]);
      ItemIndexOfMember(table, rows[j]);
    }
  }

  // ---------------------------------------------------------------------------------------
  // Building the profiles and the feature rows
  // ---------------------------------------------------------------------------------------

  /** Adds one to an item's category for every id of `ids` found in the item map. */
  method AddCategoryCounts(profile: Profile, ids: set<int>, items: map<int, Item>) returns (p: Profile)
    requires PositiveCounts(profile)
    ensures PositiveCounts(p)
    ensures forall c :: Count(p, c) == Count(profile, c) + |CategoryItems(ids, items, c)|
  {
    p := profile;
    var todo := ids;
    while todo != {}
      invariant todo <= ids
      invariant PositiveCounts(p)
      invariant forall c :: Count(p, c) == Count(profile, c) + |CategoryItems(ids - todo, items, c)|
      decreases todo
    {
      var id := PickFrom(todo);
      forall c ensures |CategoryItems((ids - todo) + {id}, items, c)|
        == |CategoryItems(ids - todo, items, c)| + (if id in items && items[id].category == c then 1 else 0)
      {
        CategoryItemsAdd(ids - todo, id, items, c);
      }
      if id in items {
        var c := items[id].category;
        p := p[c := Count(p, c) + 1];
      }
      assert ids - (todo - {id}) == (ids - todo) + {id};
      todo := todo - {id};
    }
    assert ids - todo == ids;
  }

  /** One feature row: entry j is the profile's count for column j, 0 when absent. */
  method EmbedProfile(profile: Profile, columns: map<Category, nat>, cols: seq<Category>) returns (vec: seq<nat>)
    requires Distinct(cols) && columns == PositionMap(cols)
    ensures |vec| == |cols|
    ensures forall j :: 0 <= j < |cols| ==> vec[j] == Count(profile, cols[j])
  {
    vec := seq(|cols|, _ => 0);
    var todo := profile.Keys;
    while todo != {}
      invariant todo <= profile.Keys
      invariant |vec| == |cols|
      invariant forall j :: 0 <= j < |cols| ==>
        vec[j] == (if cols[j] in profile && cols[j] !in todo then profile[cols[j]] else 0)
      decreases todo
    {
      var c := PickFrom(todo);
      forall j | 0 <= j < |cols| && cols[j] == c ensures c in columns && columns[c] == j {
        PositionMapDistinct(cols, j);
      }
      if c in columns {
        vec := vec[columns[c] := profile[c]];
      }
      todo := todo - {c};
    }
  }

  // ---------------------------------------------------------------------------------------
  // Candidate generation
  // ---------------------------------------------------------------------------------------

  /** Counter over the neighbours' bid items followed by their liked items, neighbour by neighbour. */
  function NeighbourCounts(bids: map<int, set<int>>, liked: map<int, set<int>>, nb: seq<int>): multiset<int>
  {
    if nb == [] then multiset{}
    else
      var u := nb[|nb| - 1];
      NeighbourCounts(bids, liked, nb[..|nb| - 1]) + multiset(Lookup(bids, u)) + multiset(Lookup(liked, u))
  }

  /** The (neighbour position, source) pairs whose item set contains x; `true` is the bid source. */
  function SourcesContaining(bids: map<int, set<int>>, liked: map<int, set<int>>, nb: seq<int>, x: int): set<(int, bool)>
  {
    set j: int, fromBid: bool | 0 <= j < |nb| && x in (if fromBid then Lookup(bids, nb[j]) else Lookup(liked, nb[j]))
      :: (j, fromBid)
  }

  /** A candidate's count is the number of (neighbour, source) pairs that contain it. */
  lemma {:induction false} CandidateCountIsPairCount(bids: map<int, set<int>>, liked: map<int, set<int>>, nb: seq<int>, x: int)
    ensures NeighbourCounts(bids, liked, nb)[x] == |SourcesContaining(bids, liked, nb, x)|
  {
    if nb != [] {
      var init := nb[..|nb| - 1];
      var k := |nb| - 1;
      var u := nb[k];
      CandidateCountIsPairCount(bids, liked, init, x);
      var older := SourcesContaining(bids, liked, init, x);
      var viaBid: set<(int, bool)> := if x in Lookup(bids, u) then {(k, true)} else {};
      var viaLike: set<(int, bool)> := if x in Lookup(liked, u) then {(k, false)} else {};
      SourcesSplit(bids, liked, nb, x);
      assert older !! viaBid;
      assert (older + viaBid) !! viaLike;
    }
  }

  /** Sources among all neighbours are those among the earlier ones plus the last neighbour's. */
  lemma SourcesSplit(bids: map<int, set<int>>, liked: map<int, set<int>>, nb: seq<int>, x: int)
    requires nb != []
    ensures SourcesContaining(bids, liked, nb, x)
      == SourcesContaining(bids, liked, nb[..|nb| - 1], x)
       + (if x in Lookup(bids, nb[|nb| - 1]) then {(|nb| - 1, true)} else {})
       + (if x in Lookup(liked, nb[|nb| - 1]) then {(|nb| - 1, false)} else {})
  {
    var init := nb[..|nb| - 1];
    forall p | p in SourcesContaining(bids, liked, nb, x)
      ensures p in SourcesContaining(bids, liked, init, x) || p.0 == |nb| - 1
    {
      if p.0 < |nb| - 1 { assert nb[p.0] == init[p.0]; }
    }
    forall p | p in SourcesContaining(bids, liked, init, x)
      ensures p in SourcesContaining(bids, liked, nb, x)
    {
      assert nb[p.0] == init[p.0];
    }
  }

  method CollectCandidates(bids: map<int, set<int>>, liked: map<int, set<int>>, nb: seq<int>)
    returns (candidates: multiset<int>)
    ensures candidates == NeighbourCounts(bids, liked, nb)
  {
    candidates := multiset{};
    for k := 0 to |nb|
      invariant candidates == NeighbourCounts(bids, liked, nb[..k])
    {
      assert nb[..k + 1][..k] == nb[..k];
      candidates := candidates + multiset(Lookup(bids, nb[k]));
      candidates := candidates + multiset(Lookup(liked, nb[k]));
    }
    assert nb[..|nb|] == nb;
  }

  /** `candidate_counts.pop(item_id, None)` for every item the target has interacted with. */
  method RemoveInteracted(counts: multiset<int>, interacted: set<int>) returns (r: multiset<int>)
    ensures forall x :: r[x] == if x in interacted then 0 else counts[x]
  {
    r := counts;
    var todo := interacted;
    while todo != {}
      invariant todo <= interacted
      invariant forall x :: r[x] == if x in interacted && x !in todo then 0 else counts[x]
      decreases todo
    {
      var x := PickFrom(todo);
      r := r[x := 0];
      todo := todo - {x};
    }
  }

  /** The rows the availability query returns: listed, still BIDDING and not yet ended. */
  function AvailableItems(catalog: seq<Item>, ids: set<int>, now: int): (r: seq<Item>)
    ensures forall i :: 0 <= i < |r| ==>
      r[i] in catalog && r[i].itemId in ids && r[i].status == BIDDING && r[i].endTime > now
    ensures DistinctItemIds(catalog) ==> DistinctItemIds(r)
  {
    if catalog == [] then []
    else
      var it := catalog[0];
      var rest := AvailableItems(catalog[1..], ids, now);
      assert DistinctItemIds(catalog) ==> DistinctItemIds(catalog[1..]) by {
        if DistinctItemIds(catalog) {
          forall a, b | 0 <= a < b < |catalog| - 1 ensures catalog[1..][a].itemId != catalog[1..][b].itemId {
            assert catalog[1..][a] == catalog[a + 1] && catalog[1..][b] == catalog[b + 1];
          }
        }
      }
      if it.itemId in ids && it.status == BIDDING && it.endTime > now then
        assert DistinctItemIds(catalog) ==> forall i :: 0 <= i < |rest| ==> rest[i].itemId != it.itemId by {
          if DistinctItemIds(catalog) {
            forall i | 0 <= i < |rest| ensures rest[i].itemId != it.itemId {
              assert rest[i] in catalog[1..];
              var j :| 0 <= j < |catalog| - 1 && catalog[1..][j] == rest[i];
              assert catalog[j + 1] == rest[i];
            }
          }
        }
        [it] + rest
      else rest
  }

  /** Every listed, BIDDING, not-ended catalogue row is among the available rows. */
  lemma {:induction false} AvailableComplete(catalog: seq<Item>, ids: set<int>, now: int, it: Item)
    requires it in catalog && it.itemId in ids && it.status == BIDDING && it.endTime > now
    ensures it in AvailableItems(catalog, ids, now)
  {
    if it != catalog[0] {
      assert it in catalog[1..];
      AvailableComplete(catalog[1..], ids, now, it);
    }
  }

  /** Popularity fallback rows: biddable, not ended, created in the last three days, not interacted with. */
  predicate PopularEligible(it: Item, interacted: set<int>, now: int)
  {
    it.status == BIDDING && it.endTime > now && it.createdAt > now - 3 * DAY && it.itemId !in interacted
  }

  function PopularPool(catalog: seq<Item>, interacted: set<int>, now: int): set<Item>
  {
    set it | it in catalog && PopularEligible(it, interacted, now)
  }

  /** `ORDER BY bid_count DESC, view_count DESC`. */
  predicate PopularityGeq(a: Item, b: Item)
  {
    a.bidCount > b.bidCount || (a.bidCount == b.bidCount && a.viewCount >= b.viewCount)
  }

  /** The recommendation records for `items`, each scored by its count in `scores`. */
  function RecsOf(items: seq<Item>, scores: multiset<int>): (r: seq<ItemRecommendation>)
    ensures |r| == |items|
    ensures forall i :: 0 <= i < |items| ==> r[i] == ToRecommendation(items[i], scores[items[i].itemId])
  {
    seq(|items|, i requires 0 <= i < |items| => ToRecommendation(items[i], scores[items[i].itemId]))
  }

  method BuildRecommendations(items: seq<Item>, scores: multiset<int>) returns (recs: seq<ItemRecommendation>)
    ensures recs == RecsOf(items, scores)
  {
    recs := [];
    for k := 0 to |items|
      invariant |recs| == k
      invariant forall i :: 0 <= i < k ==> recs[i] == ToRecommendation(items[i], scores[items[i].itemId])
    {
      recs := recs + [ToRecommendation(items[k], scores[items[k].itemId])];
    }
  }

  /** The popularity list for `n` slots: the best eligible rows by popularity, each scored 0. */
  ghost predicate IsPopularList(recs: seq<ItemRecommendation>, catalog: seq<Item>, interacted: set<int>, n: nat, now: int)
  {
    exists ranked :: IsTop(ranked, PopularPool(catalog, interacted, now), PopularityGeq, n)
      && recs == RecsOf(ranked, multiset{})
  }

  /** The ids a list of recommendations already holds (`existing_ids`). */
  function RecIds(recs: seq<ItemRecommendation>): set<int>
  {
    set i | 0 <= i < |recs| :: recs[i].itemId
  }

  /** The rows of `popular` whose ids are not in `ids`, in their order. */
  function NotListed(popular: seq<ItemRecommendation>, ids: set<int>): (r: seq<ItemRecommendation>)
    ensures |r| <= |popular|
  {
    if popular == [] then []
    else
      var init := popular[..|popular| - 1];
      var last := popular[|popular| - 1];
      NotListed(init, ids) + (if last.itemId in ids then [] else [last])
  }

  /** The filter keeps exactly the rows of `popular` whose ids are not in `ids`. */
  lemma {:induction false} NotListedMembers(popular: seq<ItemRecommendation>, ids: set<int>)
    ensures forall i :: 0 <= i < |NotListed(popular, ids)| ==>
      NotListed(popular, ids)[i] in popular && NotListed(popular, ids)[i].itemId !in ids
    ensures forall x :: x in popular && x.itemId !in ids <==> x in NotListed(popular, ids)
  {
    if popular != [] {
      var init := popular[..|popular| - 1];
      var last := popular[|popular| - 1];
      assert popular == init + [last];
      NotListedMembers(init, ids);
    }
  }

  /** Filtering a list with distinct ids keeps the ids distinct. */
  lemma {:induction false} NotListedDistinct(popular: seq<ItemRecommendation>, ids: set<int>)
    requires DistinctRecIds(popular)
    ensures DistinctRecIds(NotListed(popular, ids))
  {
    if popular != [] {
      var init := popular[..|popular| - 1];
      var last := popular[|popular| - 1];
      assert DistinctRecIds(init) by {
        forall a, b | 0 <= a < b < |init| ensures init[a].itemId != init[b].itemId {
          assert init[a] == popular[a] && init[b] == popular[b];
        }
      }
      NotListedDistinct(init, ids);
      NotListedMembers(init, ids);
      var head := NotListed(init, ids);
      forall i | 0 <= i < |head| ensures head[i].itemId != last.itemId {
        var j :| 0 <= j < |init| && init[j] == head[i];
        assert popular[j] == head[i];
      }
    }
  }

  /** Filtering a prefix gives a prefix of the filtered list. */
  lemma {:induction false} NotListedPrefix(popular: seq<ItemRecommendation>, k: nat, ids: set<int>)
    requires k <= |popular|
    ensures |NotListed(popular[..k], ids)| <= |NotListed(popular, ids)|
    ensures NotListed(popular, ids)[..|NotListed(popular[..k], ids)|] == NotListed(popular[..k], ids)
    decreases |popular| - k
  {
    if k == |popular| {
      assert popular[..k] == popular;
    } else {
      var init := popular[..|popular| - 1];
      assert popular[..k] == init[..k];
      NotListedPrefix(init, k, ids);
    }
  }

  /**
   * The result of the top-up: `recs`, then the popular rows whose ids `recs` does not hold,
   * in their order, until n rows are listed.
   */
  function TopUpOf(recs: seq<ItemRecommendation>, popular: seq<ItemRecommendation>, n: nat): seq<ItemRecommendation>
  {
    if |recs| >= n then recs
    else
      var unlisted := NotListed(popular, RecIds(recs));
      recs + unlisted[..Min(n - |recs|, |unlisted|)]
  }

  /**
   * The top-up keeps `recs` in front, adds only popular rows with new ids and stops at n rows;
   * when it ends short of n, every popular row with a new id is listed.
   */
  lemma TopUpOfSpec(recs: seq<ItemRecommendation>, popular: seq<ItemRecommendation>, n: nat)
    ensures var r := TopUpOf(recs, popular, n);
      && |recs| <= |r| && r[..|recs|] == recs
      && (|recs| <= n ==> |r| <= n)
      && (forall i :: |recs| <= i < |r| ==> r[i] in popular && r[i].itemId !in RecIds(recs))
      && (|r| < n ==> forall x :: x in popular && x.itemId !in RecIds(recs) ==> x in r)
  {
    var r := TopUpOf(recs, popular, n);
    if |recs| < n {
      var unlisted := NotListed(popular, RecIds(recs));
      var added := unlisted[..Min(n - |recs|, |unlisted|)];
      assert r == recs + added;
      NotListedMembers(popular, RecIds(recs));
      forall i | |recs| <= i < |r| ensures r[i] in popular && r[i].itemId !in RecIds(recs) {
        assert r[i] == unlisted[i - |recs|];
      }
      if |r| < n {
        assert added == unlisted;
        forall x | x in popular && x.itemId !in RecIds(recs) ensures x in r {
          var j :| 0 <= j < |unlisted| && unlisted[j] == x;
          assert r[|recs| + j] == x;
        }
      }
    }
  }

  /** With distinct ids in both lists, the top-up result has distinct ids. */
  lemma TopUpDistinct(recs: seq<ItemRecommendation>, popular: seq<ItemRecommendation>, n: nat)
    requires DistinctRecIds(recs) && DistinctRecIds(popular)
    ensures DistinctRecIds(TopUpOf(recs, popular, n))
  {
    var r := TopUpOf(recs, popular, n);
    if |recs| < n {
      var unlisted := NotListed(popular, RecIds(recs));
      assert r == recs + unlisted[..Min(n - |recs|, |unlisted|)];
      NotListedMembers(popular, RecIds(recs));
      NotListedDistinct(popular, RecIds(recs));
      forall i, j | 0 <= i < j < |r| ensures r[i].itemId != r[j].itemId {
        if j >= |recs| {
          assert r[j] == unlisted[j - |recs|];
          if i >= |recs| {
            assert r[i] == unlisted[i - |recs|];
          } else {
            assert r[i].itemId in RecIds(recs);
          }
        }
      }
    }
  }

  /** Filtering one more row of `popular` appends that row when its id is new. */
  lemma NotListedStep(popular: seq<ItemRecommendation>, k: nat, ids: set<int>)
    requires k < |popular|
    ensures NotListed(popular[..k + 1], ids)
      == NotListed(popular[..k], ids) + (if popular[k].itemId in ids then [] else [popular[k]])
  {
    assert popular[..k + 1][..k] == popular[..k] && popular[..k + 1][k] == popular[k];
  }

  /** Once the filtered prefix fills the n slots, the top-up result is `recs` and that prefix. */
  lemma TopUpStops(recs: seq<ItemRecommendation>, popular: seq<ItemRecommendation>, n: nat, k: nat)
    requires k <= |popular| && |recs| < n
    requires |recs| + |NotListed(popular[..k], RecIds(recs))| == n
    ensures TopUpOf(recs, popular, n) == recs + NotListed(popular[..k], RecIds(recs))
  {
    NotListedPrefix(popular, k, RecIds(recs));
  }

  /** When all of `popular` is filtered short of n slots, the top-up result appends all of it. */
  lemma TopUpExhausted(recs: seq<ItemRecommendation>, popular: seq<ItemRecommendation>, n: nat)
    requires |recs| + |NotListed(popular[..|popular|], RecIds(recs))| < n
    ensures TopUpOf(recs, popular, n) == recs + NotListed(popular[..|popular|], RecIds(recs))
  {
    assert popular[..|popular|] == popular;
  }

  /** A ranked top list and its scored rows make a popularity list. */
  lemma PopularListOf(ranked: seq<Item>, recs: seq<ItemRecommendation>, catalog: seq<Item>,
                      interacted: set<int>, n: nat, now: int)
    requires IsTop(ranked, PopularPool(catalog, interacted, now), PopularityGeq, n)
    requires recs == RecsOf(ranked, multiset{})
    ensures IsPopularList(recs, catalog, interacted, n, now)
  {
  }

  /** Appends popular rows whose ids are not yet listed, stopping once n rows are listed. */
  method TopUp(recs: seq<ItemRecommendation>, popular: seq<ItemRecommendation>, n: nat)
    returns (r: seq<ItemRecommendation>)
    requires |recs| < n
    ensures r == TopUpOf(recs, popular, n)
  {
    var existing := RecIds(recs);
    r := recs;
    var k := 0;
    while k < |popular|
      invariant 0 <= k <= |popular|
      invariant r == recs + NotListed(popular[..k], existing)
      invariant |r| < n
    {
      var item := popular[k];
      NotListedStep(popular, k, existing);
      if item.itemId !in existing {
        r := r + [item];
        if |r| >= n {
          TopUpStops(recs, popular, n, k + 1);
          break;
        }
      }
      k := k + 1;
    }
    if k == |popular| {
      TopUpExhausted(recs, popular, n);
    }
  }

  /** `user_bid_items`: the set of items each buyer has bid on. */
  method BidMap(transactions: seq<BidTransaction>) returns (bids: map<int, set<int>>)
    ensures forall u :: Lookup(bids, u) == BidItemsOf(transactions, u)
  {
    bids := map[];
    for k := 0 to |transactions|
      invariant forall u :: Lookup(bids, u) == BidItemsOf(transactions[..k], u)
    {
      assert transactions[..k + 1][..k] == transactions[..k];
      var t := transactions[k];
      bids := bids[t.buyerId := Lookup(bids, t.buyerId) + {t.itemId}];
    }
    assert transactions[..|transactions|] == transactions;
  }

  /** `user_liked_items`: the set of items each user has liked. */
  method LikedMap(wishlist: seq<WishlistEntry>) returns (liked: map<int, set<int>>)
    ensures forall u :: Lookup(liked, u) == LikedItemsOf(wishlist, u)
  {
    liked := map[];
    for k := 0 to |wishlist|
      invariant forall u :: Lookup(liked, u) == LikedItemsOf(wishlist[..k], u)
    {
      assert wishlist[..k + 1][..k] == wishlist[..k];
      var w := wishlist[k];
      if w.liked {
        liked := liked[w.userId := Lookup(liked, w.userId) + {w.itemId}];
      }
    }
    assert wishlist[..|wishlist|] == wishlist;
  }

  /** The interaction maps and profiles `load_data` builds from the four tables. */
  method LoadedMaps(users: seq<int>, items: seq<Item>, transactions: seq<BidTransaction>, wishlist: seq<WishlistEntry>)
    returns (bids: map<int, set<int>>, liked: map<int, set<int>>, profiles: map<int, Profile>)
    ensures forall u :: Lookup(bids, u) == BidItemsOf(transactions, u)
    ensures forall u :: Lookup(liked, u) == LikedItemsOf(wishlist, u)
    ensures forall u :: u in profiles <==> u in users
    ensures forall i :: 0 <= i < |users| ==> users[i] in profiles
    ensures forall u :: u in profiles ==>
      IsProfileOf(profiles[u], BidItemsOf(transactions, u), LikedItemsOf(wishlist, u), ItemIndex(items))
  {
    bids := BidMap(transactions);
    liked := LikedMap(wishlist);
    profiles := BuildProfiles(users, bids, liked, ItemIndex(items));
    forall u | u in profiles
      ensures IsProfileOf(profiles[u], BidItemsOf(transactions, u), LikedItemsOf(wishlist, u), ItemIndex(items))
    {
      assert Lookup(bids, u) == BidItemsOf(transactions, u);
      assert Lookup(liked, u) == LikedItemsOf(wishlist, u);
    }
    forall i | 0 <= i < |users| ensures users[i] in profiles {
      var u := users[i];
      assert u in users;
    }
  }

  /** One category profile per user: bid items and liked items counted separately. */
  method BuildProfiles(users: seq<int>, bids: map<int, set<int>>, liked: map<int, set<int>>, items: map<int, Item>)
    returns (profiles: map<int, Profile>)
    ensures forall u :: u in profiles <==> u in users
    ensures forall u :: u in profiles ==> IsProfileOf(profiles[u], Lookup(bids, u), Lookup(liked, u), items)
  {
    profiles := map[];
    for k := 0 to |users|
      invariant forall u :: u in profiles <==> u in users[..k]
      invariant forall u :: u in profiles ==> IsProfileOf(profiles[u], Lookup(bids, u), Lookup(liked, u), items)
    {
      var u := users[k];
      var p := AddCategoryCounts(map[], Lookup(bids, u), items);
      p := AddCategoryCounts(p, Lookup(liked, u), items);
      profiles := profiles[u := p];
    }
    assert users[..|users|] == users;
  }

  /** The union of the category keys of every profile, `all_categories`. */
  method CollectCategories(order: seq<int>, profiles: map<int, Profile>) returns (seen: set<Category>)
    requires forall i :: 0 <= i < |order| ==> order[i] in profiles
    ensures seen == SeenCategories(order, profiles)
  {
    seen := {};
    for k := 0 to |order|
      invariant seen == SeenCategories(order[..k], profiles)
    {
      assert order[..k + 1][..k] == order[..k];
      seen := seen + profiles[order[k]].Keys;
    }
    assert order[..|order|] == order;
  }

  /** One feature row per user of `order`, in that order. */
  method EmbedAll(order: seq<int>, profiles: map<int, Profile>, columns: map<Category, nat>, cols: seq<Category>)
    returns (matrix: seq<seq<nat>>)
    requires forall i :: 0 <= i < |order| ==> order[i] in profiles
    requires Distinct(cols) && columns == PositionMap(cols)
    ensures |matrix| == |order|
    ensures forall i :: 0 <= i < |matrix| ==> |matrix[i]| == |cols|
    ensures forall i, j :: 0 <= i < |order| && 0 <= j < |cols| ==> matrix[i][j] == Count(profiles[order[i]], cols[j])
  {
    matrix := [];
    for k := 0 to |order|
      invariant |matrix| == k
      invariant forall i :: 0 <= i < k ==> |matrix[i]| == |cols|
      invariant forall i, j :: 0 <= i < k && 0 <= j < |cols| ==> matrix[i][j] == Count(profiles[order[i]], cols[j])
    {
      var vec := EmbedProfile(profiles[order[k]], columns, cols);
      matrix := matrix + [vec];
    }
  }

  class AuctionRecommender {
    var userBidItems: map<int, set<int>>
    var userLikedItems: map<int, set<int>>
    var userProfiles: map<int, Profile>
    /** The insertion order of `userProfiles` (a Python dict iterates in that order). */
    var profileOrder: seq<int>
    var allItems: map<int, Item>
    var featureColumns: map<Category, nat>
    /** The column categories in index order: the keys of `featureColumns` sorted by index. */
    ghost var columnOrder: seq<Category>
    var featureMatrix: seq<seq<nat>>
    var userIdList: seq<int>
    var similarityMatrix: seq<seq<real>>
    var userIdxMap: map<int, nat>

    /** Matrix rows, the id list and the id-to-row map agree. */
    ghost predicate Valid()
      reads this
    {
      && Distinct(userIdList)
      && profileOrder == userIdList
      && (forall i :: 0 <= i < |userIdList| ==> userIdList[i] in userProfiles)
      && Distinct(columnOrder)
      && featureColumns == PositionMap(columnOrder)
      && |featureMatrix| == |userIdList|
      && (forall i :: 0 <= i < |featureMatrix| ==> |featureMatrix[i]| == |columnOrder|)
      && (forall i, j :: 0 <= i < |userIdList| && 0 <= j < |columnOrder| ==>
            featureMatrix[i][j] == Count(userProfiles[userIdList[i]], columnOrder[j]))
      && userIdxMap == PositionMap(userIdList)
      && SquareMatrix(similarityMatrix, |userIdList|)
    }

    /** Everything the target has bid on or liked. */
    function Interacted(target: int): set<int>
      reads this
    {
      Lookup(userBidItems, target) + Lookup(userLikedItems, target)
    }

    /**
     * Builds profiles, the feature matrix and the similarity matrix from a snapshot.
     * `similarity` stands for `cosine_similarity`; only the shape of its result is assumed.
     */
    constructor (users: seq<int>, items: seq<Item>, transactions: seq<BidTransaction>,
                 wishlist: seq<WishlistEntry>, similarity: seq<seq<nat>> -> seq<seq<real>>)
      requires Distinct(users)
      requires forall m: seq<seq<nat>> :: SquareMatrix(similarity(m), |m|)
      ensures Valid()
      ensures userIdList == users && allItems == ItemIndex(items)
      ensures forall u :: Lookup(userBidItems, u) == BidItemsOf(transactions, u)
      ensures forall u :: Lookup(userLikedItems, u) == LikedItemsOf(wishlist, u)
      ensures forall u :: u in userProfiles ==>
        IsProfileOf(userProfiles[u], BidItemsOf(transactions, u), LikedItemsOf(wishlist, u), allItems)
      ensures columnOrder == SortedColumns(SeenCategories(users, userProfiles))
      ensures similarityMatrix == similarity(featureMatrix)
    {
      userBidItems, userLikedItems, userProfiles, profileOrder := map[], map[], map[], [];
      allItems, featureColumns, columnOrder := map[], map[], [];
      featureMatrix, userIdList, similarityMatrix, userIdxMap := [], [], [], map[];
      new;
      LoadData(users, items, transactions, wishlist);
      CreateFeatureMatrix();
      CalculateSimilarity(similarity);
    }

    /** Interaction sets and one profile per user. */
    method LoadData(users: seq<int>, items: seq<Item>, transactions: seq<BidTransaction>, wishlist: seq<WishlistEntry>)
      modifies this
      ensures allItems == ItemIndex(items) && profileOrder == users
      ensures forall u :: Lookup(userBidItems, u) == BidItemsOf(transactions, u)
      ensures forall u :: Lookup(userLikedItems, u) == LikedItemsOf(wishlist, u)
      ensures forall u :: u in userProfiles <==> u in users
      ensures forall i :: 0 <= i < |users| ==> users[i] in userProfiles
      ensures forall u :: u in userProfiles ==>
        IsProfileOf(userProfiles[u], BidItemsOf(transactions, u), LikedItemsOf(wishlist, u), allItems)
      ensures featureColumns == old(featureColumns) && columnOrder == old(columnOrder)
      ensures featureMatrix == old(featureMatrix) && userIdList == old(userIdList)
      ensures similarityMatrix == old(similarityMatrix) && userIdxMap == old(userIdxMap)
    {
      var bidMap, likedMap, profiles := LoadedMaps(users, items, transactions, wishlist);
      userBidItems, userLikedItems, userProfiles := bidMap, likedMap, profiles;
      profileOrder, allItems := users, ItemIndex(items);
    }

    /** Sorted category columns and one embedded row per user, in profile order. */
    method CreateFeatureMatrix()
      requires forall i :: 0 <= i < |profileOrder| ==> profileOrder[i] in userProfiles
      modifies this
      ensures userBidItems == old(userBidItems) && userLikedItems == old(userLikedItems)
      ensures userProfiles == old(userProfiles) && profileOrder == old(profileOrder)
      ensures allItems == old(allItems)
      ensures columnOrder == SortedColumns(SeenCategories(profileOrder, userProfiles))
      ensures Distinct(columnOrder) && featureColumns == PositionMap(columnOrder)
      ensures userIdList == profileOrder && |featureMatrix| == |userIdList|
      ensures forall i :: 0 <= i < |featureMatrix| ==> |featureMatrix[i]| == |columnOrder|
      ensures forall i, j :: 0 <= i < |userIdList| && 0 <= j < |columnOrder| ==>
        featureMatrix[i][j] == Count(userProfiles[userIdList[i]], columnOrder[j])
    {
      var seen := CollectCategories(profileOrder, userProfiles);
      var cols := SortedColumns(seen);
      SortedColumnsSpec(seen);
      var columns := PositionMap(cols);
      var matrix := EmbedAll(profileOrder, userProfiles, columns, cols);
      featureColumns, columnOrder := columns, cols;
      featureMatrix, userIdList := matrix, profileOrder;
    }

    /** The similarity matrix and the id-to-row map. */
    method CalculateSimilarity(similarity: seq<seq<nat>> -> seq<seq<real>>)
      requires forall m: seq<seq<nat>> :: SquareMatrix(similarity(m), |m|)
      requires Distinct(userIdList) && profileOrder == userIdList
      requires forall i :: 0 <= i < |userIdList| ==> userIdList[i] in userProfiles
      requires Distinct(columnOrder) && featureColumns == PositionMap(columnOrder)
      requires |featureMatrix| == |userIdList|
      requires forall i :: 0 <= i < |featureMatrix| ==> |featureMatrix[i]| == |columnOrder|
      requires forall i, j :: 0 <= i < |userIdList| && 0 <= j < |columnOrder| ==>
        featureMatrix[i][j] == Count(userProfiles[userIdList[i]], columnOrder[j])
      modifies this
      ensures Valid()
      ensures similarityMatrix == similarity(featureMatrix) && userIdxMap == PositionMap(userIdList)
      ensures userBidItems == old(userBidItems) && userLikedItems == old(userLikedItems)
      ensures userProfiles == old(userProfiles) && allItems == old(allItems)
      ensures columnOrder == old(columnOrder) && userIdList == old(userIdList)
    {
      similarityMatrix := similarity(featureMatrix);
      userIdxMap := PositionMap(userIdList);
    }

    /**
     * `similar` lists the best `nUsers` known users by masked similarity to the target, best
     * first, ties in any order. The target itself is not excluded; it merely scores 0.
     */
    ghost predicate IsSimilarUsers(target: int, nUsers: nat, similar: seq<int>)
      reads this
    {
      var sim, idx := similarityMatrix, userIdxMap;
      if target !in idx then similar == []
      else IsTop(similar, set u | u in userIdList,
                 (a, b) => MaskedScore(sim, idx, target, a) >= MaskedScore(sim, idx, target, b), nUsers)
    }

    method GetSimilarUsers(target: int, nUsers: nat) returns (similar: seq<int>)
      requires Valid()
      ensures IsSimilarUsers(target, nUsers, similar)
      ensures similar == [] <==> target !in userIdxMap || nUsers == 0
      ensures target in userIdxMap && |userIdList| <= nUsers ==> target in similar
    {
      if target !in userIdxMap {
        return [];
      }
      var row := similarityMatrix[userIdxMap[target]];
      var idx := userIdxMap;
      var score := (u: int) => if u != target && u in idx && idx[u] < |row| then row[idx[u]] else 0.0;
      var users := set u | u in userIdList;
      DistinctElements(userIdList);
      var byScore := (a: int, b: int) => score(a) >= score(b);
      similar := SelectTop(users, byScore, nUsers);
      ghost var sim := similarityMatrix;
      TopSameRanking(similar, users, byScore,
        (a, b) => MaskedScore(sim, idx, target, a) >= MaskedScore(sim, idx, target, b), nUsers);
      assert target in users;
      if |userIdList| <= nUsers {
        TopCoversPool(similar, users, byScore, nUsers);
      }
    }

    /** Up to `nItems` popular rows the target has not interacted with, all scored 0. */
    method PopularItems(target: int, nItems: nat, now: int, catalog: seq<Item>)
      returns (popular: seq<ItemRecommendation>, ghost ranked: seq<Item>)
      requires DistinctItemIds(catalog)
      ensures IsTop(ranked, PopularPool(catalog, Interacted(target), now), PopularityGeq, nItems)
      ensures popular == RecsOf(ranked, multiset{})
      ensures DistinctRecIds(popular)
      ensures forall i :: 0 <= i < |popular| ==>
        && popular[i].score == 0
        && popular[i].itemId in ItemIndex(catalog)
        && popular[i] == ToRecommendation(ItemIndex(catalog)[popular[i].itemId], 0)
        && PopularEligible(ItemIndex(catalog)[popular[i].itemId], Interacted(target), now)
    {
      var interacted := Lookup(userBidItems, target) + Lookup(userLikedItems, target);
      var eligible: set<Item>;
      if interacted != {} {
        eligible := set it | it in catalog && it.status == BIDDING && it.endTime > now
          && it.createdAt > now - 3 * DAY && it.itemId !in interacted;
      } else {
        eligible := set it | it in catalog && it.status == BIDDING && it.endTime > now
          && it.createdAt > now - 3 * DAY;
      }
      assert eligible == PopularPool(catalog, interacted, now);
      var limited := SelectTop(eligible, PopularityGeq, 2 * nItems);
      TopPrefix(limited, eligible, PopularityGeq, 2 * nItems, nItems);
      var chosen := limited[..Min(nItems, |limited|)];
      ranked := chosen;
      popular := BuildRecommendations(chosen, multiset{});
      DistinctRowsDistinctIds(ranked, catalog);
      forall i | 0 <= i < |popular|
        ensures popular[i].itemId in ItemIndex(catalog) && ItemIndex(catalog)[popular[i].itemId] == ranked[i]
      {
        ItemIndexOfMember(catalog, ranked[i]);
      }
    }

    /**
     * Up to n recommendations for the target: collaborative-filtering rows first, then popular
     * rows. `neighbours` are the similar users found and `pool` the top-2n candidate ids.
     */
    method RecommendItems(target: int, n: nat, now: int, catalog: seq<Item>)
      returns (recs: seq<ItemRecommendation>, ghost neighbours: seq<int>, ghost pool: seq<int>,
               ghost cfRows: seq<ItemRecommendation>, ghost popularRows: seq<ItemRecommendation>)
      requires Valid()
      requires DistinctItemIds(catalog)
      ensures IsSimilarUsers(target, 5, neighbours)
      ensures |recs| <= n
      ensures DistinctRecIds(recs)
      ensures forall i :: 0 <= i < |recs| ==> RecommendationFits(recs[i], catalog, Interacted(target), now,
        pool, NeighbourCounts(userBidItems, userLikedItems, neighbours))
      ensures neighbours != [] ==>
        IsCandidatePool(userBidItems, userLikedItems, neighbours, Interacted(target), pool, 2 * n)
      ensures neighbours == [] || pool == [] ==> IsPopularList(recs, catalog, Interacted(target), n, now)
      ensures neighbours != [] && pool != [] ==>
        && cfRows == RecsOf(CollaborativeItems(catalog, pool, n, now),
                            NeighbourCounts(userBidItems, userLikedItems, neighbours))
        && (|cfRows| < n ==> IsPopularList(popularRows, catalog, Interacted(target), n - |cfRows|, now))
        && recs == TopUpOf(cfRows, popularRows, n)
    {
      var similar := GetSimilarUsers(target, 5);
      neighbours, pool, cfRows, popularRows := similar, [], [], [];
      var interacted := Lookup(userBidItems, target) + Lookup(userLikedItems, target);
      ghost var nc := NeighbourCounts(userBidItems, userLikedItems, neighbours);
      if similar == [] {
        ghost var ranked;
        recs, ranked := PopularItems(target, n, now, catalog);
        return;
      }
      var counts, top := RankCandidates(userBidItems, userLikedItems, similar, interacted, 2 * n);
      pool := top;
      if top == [] {
        ghost var ranked;
        recs, ranked := PopularItems(target, n, now, catalog);
        return;
      }
      var cf := CollaborativeRows(catalog, top, counts, n, now);
      CollaborativeFits(catalog, top, n, now, counts, cf, userBidItems, userLikedItems, similar, interacted);
      PoolScores(catalog, top, n, now, counts, userBidItems, userLikedItems, similar, interacted);
      cfRows := cf;
      recs := cf;
      if |cf| < n {
        recs, popularRows := FillWithPopular(target, n, now, catalog, cf, pool, nc);
      }
    }

    /** The top-up step: `cf` followed by popular rows for the `n - |cf|` missing slots. */
    method FillWithPopular(target: int, n: nat, now: int, catalog: seq<Item>, cf: seq<ItemRecommendation>,
                           ghost pool: seq<int>, ghost nc: multiset<int>)
      returns (recs: seq<ItemRecommendation>, ghost popularRows: seq<ItemRecommendation>)
      requires DistinctItemIds(catalog) && |cf| < n && DistinctRecIds(cf)
      requires forall i :: 0 <= i < |cf| ==> RecommendationFits(cf[i], catalog, Interacted(target), now, pool, nc)
      ensures IsPopularList(popularRows, catalog, Interacted(target), n - |cf|, now)
      ensures recs == TopUpOf(cf, popularRows, n)
      ensures DistinctRecIds(recs)
      ensures forall i :: 0 <= i < |recs| ==> RecommendationFits(recs[i], catalog, Interacted(target), now, pool, nc)
    {
      var popular;
      ghost var ranked;
      popular, ranked := PopularItems(target, n - |cf|, now, catalog);
      popularRows := popular;
      PopularListOf(ranked, popular, catalog, Interacted(target), n - |cf|, now);
      recs := TopUp(cf, popular, n);
      TopUpDistinct(cf, popular, n);
      TopUpFits(cf, popular, n, catalog, Interacted(target), now, pool, nc);
    }
  }

  /**
   * One recommendation row: an eligible catalogue row the target has not interacted with,
   * scored by its candidate count when it came from the pool and 0 when it came from the
   * popularity fallback.
   */
  ghost predicate RecommendationFits(r: ItemRecommendation, catalog: seq<Item>, interacted: set<int>,
                                     now: int, pool: seq<int>, counts: multiset<int>)
  {
    && r.itemId !in interacted
    && r.status == BIDDING && r.endTime > now
    && r.itemId in ItemIndex(catalog)
    && r == ToRecommendation(ItemIndex(catalog)[r.itemId], r.score)
    && (r.score > 0 ==> r.itemId in pool && r.score == counts[r.itemId])
    && (r.score == 0 ==> PopularEligible(ItemIndex(catalog)[r.itemId], interacted, now))
  }

  /** Scoring the collaborative rows by the filtered counts equals scoring them by the neighbour counts. */
  lemma PoolScores(catalog: seq<Item>, top: seq<int>, n: nat, now: int, counts: multiset<int>,
                   bids: map<int, set<int>>, liked: map<int, set<int>>, nb: seq<int>, interacted: set<int>)
    requires IsCandidatePool(bids, liked, nb, interacted, top, 2 * n)
    requires forall x :: counts[x] == if x in interacted then 0 else NeighbourCounts(bids, liked, nb)[x]
    ensures RecsOf(CollaborativeItems(catalog, top, n, now), counts)
      == RecsOf(CollaborativeItems(catalog, top, n, now), NeighbourCounts(bids, liked, nb))
  {
    var nc := NeighbourCounts(bids, liked, nb);
    var chosen := CollaborativeItems(catalog, top, n, now);
    forall i | 0 <= i < |chosen| ensures counts[chosen[i].itemId] == nc[chosen[i].itemId] {
      var j :| 0 <= j < |top| && top[j] == chosen[i].itemId;
      assert top[j] in set x | x in nc && x !in interacted;
    }
    RecsOfAgree(chosen, counts, nc);
  }

  /** Every collaborative row is an available pool row scored by its neighbour count. */
  lemma CollaborativeFits(catalog: seq<Item>, top: seq<int>, n: nat, now: int, counts: multiset<int>,
                          cf: seq<ItemRecommendation>, bids: map<int, set<int>>, liked: map<int, set<int>>,
                          nb: seq<int>, interacted: set<int>)
    requires IsCandidatePool(bids, liked, nb, interacted, top, 2 * n)
    requires forall x :: counts[x] == if x in interacted then 0 else NeighbourCounts(bids, liked, nb)[x]
    requires forall i :: 0 <= i < |cf| ==>
      && cf[i].itemId in top && cf[i].status == BIDDING && cf[i].endTime > now
      && cf[i].itemId in ItemIndex(catalog)
      && cf[i] == ToRecommendation(ItemIndex(catalog)[cf[i].itemId], counts[cf[i].itemId])
    ensures forall i :: 0 <= i < |cf| ==>
      RecommendationFits(cf[i], catalog, interacted, now, top, NeighbourCounts(bids, liked, nb))
  {
    var nc := NeighbourCounts(bids, liked, nb);
    forall i | 0 <= i < |cf| ensures RecommendationFits(cf[i], catalog, interacted, now, top, nc) {
      var j :| 0 <= j < |top| && top[j] == cf[i].itemId;
      assert top[j] in set x | x in nc && x !in interacted;
    }
  }

  /** Topping up fitting collaborative rows with popular rows keeps every row fitting. */
  lemma TopUpFits(cf: seq<ItemRecommendation>, popular: seq<ItemRecommendation>, n: nat, catalog: seq<Item>,
                  interacted: set<int>, now: int, pool: seq<int>, nc: multiset<int>)
    requires forall i :: 0 <= i < |cf| ==> RecommendationFits(cf[i], catalog, interacted, now, pool, nc)
    requires forall i :: 0 <= i < |popular| ==>
      && popular[i].score == 0
      && popular[i].itemId in ItemIndex(catalog)
      && popular[i] == ToRecommendation(ItemIndex(catalog)[popular[i].itemId], 0)
      && PopularEligible(ItemIndex(catalog)[popular[i].itemId], interacted, now)
    ensures forall i :: 0 <= i < |TopUpOf(cf, popular, n)| ==>
      RecommendationFits(TopUpOf(cf, popular, n)[i], catalog, interacted, now, pool, nc)
  {
    var r := TopUpOf(cf, popular, n);
    TopUpOfSpec(cf, popular, n);
    forall i | 0 <= i < |r| ensures RecommendationFits(r[i], catalog, interacted, now, pool, nc) {
      if i < |cf| {
        assert r[i] == r[..|cf|][i] == cf[i];
      } else {
        var j :| 0 <= j < |popular| && popular[j] == r[i];
      }
    }
  }

  /**
   * `pool` is the `most_common(size)` of the neighbour counts once the target's own items are
   * dropped: the most frequent remaining candidates, most frequent first, ties in any order.
   */
  ghost predicate IsCandidatePool(bids: map<int, set<int>>, liked: map<int, set<int>>, nb: seq<int>,
                                  interacted: set<int>, pool: seq<int>, size: nat)
  {
    var counts := NeighbourCounts(bids, liked, nb);
    IsTop(pool, set x | x in counts && x !in interacted, (a, b) => counts[a] >= counts[b], size)
  }

  /** Neighbour counts without the target's own items, and the 2n most frequent of them. */
  method RankCandidates(bids: map<int, set<int>>, liked: map<int, set<int>>, nb: seq<int>,
                        interacted: set<int>, size: nat)
    returns (counts: multiset<int>, top: seq<int>)
    ensures forall x :: counts[x] == if x in interacted then 0 else NeighbourCounts(bids, liked, nb)[x]
    ensures IsCandidatePool(bids, liked, nb, interacted, top, size)
  {
    var candidates := CollectCandidates(bids, liked, nb);
    counts := RemoveInteracted(candidates, interacted);
    var keys := set x | x in counts;
    var byCount := (a: int, b: int) => counts[a] >= counts[b];
    top := SelectTop(keys, byCount, size);
    forall x ensures x in keys <==> x in candidates && x !in interacted {
      assert counts[x] == if x in interacted then 0 else candidates[x];
    }
    forall a | a in keys ensures counts[a] == candidates[a] {
      assert a !in interacted;
    }
    assert keys == set x | x in candidates && x !in interacted;
    TopSameRanking(top, keys, byCount, (a, b) => candidates[a] >= candidates[b], size);
  }

  /** The available pool rows in table order, cut to n (`items[:n]`). */
  function CollaborativeItems(catalog: seq<Item>, pool: seq<int>, n: nat, now: int): (r: seq<Item>)
    ensures |r| <= n
    ensures forall i :: 0 <= i < |r| ==>
      r[i] in catalog && r[i].itemId in pool && r[i].status == BIDDING && r[i].endTime > now
  {
    var available := AvailableItems(catalog, set x | x in pool :: x, now);
    available[..Min(n, |available|)]
  }

  /** Short of n rows, the collaborative rows hold every available pool row of the catalogue. */
  lemma CollaborativeComplete(catalog: seq<Item>, pool: seq<int>, n: nat, now: int, it: Item)
    requires it in catalog && it.itemId in pool && it.status == BIDDING && it.endTime > now
    requires |CollaborativeItems(catalog, pool, n, now)| < n
    ensures it in CollaborativeItems(catalog, pool, n, now)
  {
    var available := AvailableItems(catalog, set x | x in pool :: x, now);
    AvailableComplete(catalog, set x | x in pool :: x, now, it);
    assert available[..|available|] == available;
  }

  /** Recommendation rows depend on the scores of their own ids only. */
  lemma RecsOfAgree(items: seq<Item>, s1: multiset<int>, s2: multiset<int>)
    requires forall i :: 0 <= i < |items| ==> s1[items[i].itemId] == s2[items[i].itemId]
    ensures RecsOf(items, s1) == RecsOf(items, s2)
  {
  }

  /** The available pool rows in table order, cut to n and scored by their candidate counts. */
  method CollaborativeRows(catalog: seq<Item>, top: seq<int>, counts: multiset<int>, n: nat, now: int)
    returns (recs: seq<ItemRecommendation>)
    requires DistinctItemIds(catalog)
    ensures recs == RecsOf(CollaborativeItems(catalog, top, n, now), counts)
    ensures |recs| <= n
    ensures DistinctRecIds(recs)
    ensures forall i :: 0 <= i < |recs| ==>
      && recs[i].itemId in top && recs[i].status == BIDDING && recs[i].endTime > now
      && recs[i].itemId in ItemIndex(catalog)
      && recs[i] == ToRecommendation(ItemIndex(catalog)[recs[i].itemId], counts[recs[i].itemId])
  {
    var available := AvailableItems(catalog, set x | x in top :: x, now);
    var chosen := available[..Min(n, |available|)];
    recs := BuildRecommendations(chosen, counts);
    forall i | 0 <= i < |recs|
      ensures recs[i].itemId in ItemIndex(catalog) && ItemIndex(catalog)[recs[i].itemId] == chosen[i]
    {
      ItemIndexOfMember(catalog, chosen[i]);
    }
  }

  /**
   * Row `idx[target]` of the similarity matrix at column `idx[u]`, forced to 0 at the target's
   * own column (the `user_id_list != target` mask).
   */
  function MaskedScore(sim: seq<seq<real>>, idx: map<int, nat>, target: int, u: int): real
  {
    if target in idx && u in idx && u != target && idx[target] < |sim| && idx[u] < |sim[idx[target]]|
    then sim[idx[target]][idx[u]]
    else 0.0
  }

  /** Two rankings that agree on the pool select the same top lists. */
  lemma TopSameRanking<T>(top: seq<T>, pool: set<T>, g1: (T, T) -> bool, g2: (T, T) -> bool, k: nat)
    requires IsTop(top, pool, g1, k)
    requires forall a, b :: a in pool && b in pool ==> g1(a, b) == g2(a, b)
    ensures IsTop(top, pool, g2, k)
  {
  }
}
