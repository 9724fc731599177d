/**
 * The derived data of the recommender: per-user interaction sets, category-frequency profiles
 * and the feature-matrix layout (column order and row embedding), as functions of a snapshot of
 * the database.
 */
module Profiles {
  import opened Wrappers
  import opened Domain

  /** A category-frequency profile (a Counter: absent keys count 0, present keys are positive). */
  type Profile = map<Category, nat>

  function Count(p: Profile, c: Category): nat
  {
    if c in p then p[c] else 0
  }

  /** A Counter only holds keys it has incremented. */
  ghost predicate PositiveCounts(p: Profile)
  {
    forall c :: c in p ==> p[c] > 0
  }

  /** `d.get(u, set())` on a defaultdict of sets. */
  function Lookup(m: map<int, set<int>>, u: int): set<int>
  {
    if u in m then m[u] else {}
  }

  // ---------------------------------------------------------------------------------------
  // Interaction sets
  // ---------------------------------------------------------------------------------------

  /** The items user `u` has bid on, after adding every transaction in order to a set. */
  function BidItemsOf(txs: seq<BidTransaction>, u: int): set<int>
  {
    if txs == [] then {}
    else
      var last := txs[|txs| - 1];
      BidItemsOf(txs[..|txs| - 1], u) + (if last.buyerId == u then {last.itemId} else {})
  }

  /** The items user `u` has liked: only wishlist rows with the flag on count. */
  function LikedItemsOf(rows: seq<WishlistEntry>, u: int): set<int>
  {
    if rows == [] then {}
    else
      var last := rows[|rows| - 1];
      LikedItemsOf(rows[..|rows| - 1], u)
        + (if last.liked && last.userId == u then {last.itemId} else {})
  }

  /** Reference definition: an item is in the bid set iff some transaction of that buyer names it. */
  lemma {:induction false} BidItemsOfIff(txs: seq<BidTransaction>, u: int, x: int)
    ensures x in BidItemsOf(txs, u) <==> exists i :: 0 <= i < |txs| && txs[i].buyerId == u && txs[i].itemId == x
  {
    if txs != [] {
      var init := txs[..|txs| - 1];
      BidItemsOfIff(init, u, x);
      if x in BidItemsOf(init, u) {
        var i :| 0 <= i < |init| && init[i].buyerId == u && init[i].itemId == x;
        assert txs[i] == init[i];
      }
      if exists i :: 0 <= i < |txs| && txs[i].buyerId == u && txs[i].itemId == x {
        var i :| 0 <= i < |txs| && txs[i].buyerId == u && txs[i].itemId == x;
        if i < |init| {
          assert init[i] == txs[i];
        }
      }
    }
  }

  /** Reference definition: an item is liked iff some wishlist row of that user with the flag on names it. */
  lemma {:induction false} LikedItemsOfIff(rows: seq<WishlistEntry>, u: int, x: int)
    ensures x in LikedItemsOf(rows, u) <==>
      exists i :: 0 <= i < |rows| && rows[i].liked && rows[i].userId == u && rows[i].itemId == x
  {
    if rows != [] {
      var init := rows[..|rows| - 1];
      LikedItemsOfIff(init, u, x);
      if x in LikedItemsOf(init, u) {
        var i :| 0 <= i < |init| && init[i].liked && init[i].userId == u && init[i].itemId == x;
        assert rows[i] == init[i];
      }
      if exists i :: 0 <= i < |rows| && rows[i].liked && rows[i].userId == u && rows[i].itemId == x {
        var i :| 0 <= i < |rows| && rows[i].liked && rows[i].userId == u && rows[i].itemId == x;
        if i < |init| {
          assert init[i] == rows[i];
        }
      }
    }
  }

  /** Bidding twice on the same item leaves every bid set unchanged. */
  lemma RepeatedBidAddsNothing(txs: seq<BidTransaction>, t: BidTransaction, u: int)
    requires t in txs
    ensures BidItemsOf(txs + [t], u) == BidItemsOf(txs, u)
  {
    assert (txs + [t])[..|txs|] == txs;
    var i :| 0 <= i < |txs| && txs[i] == t;
    BidItemsOfIff(txs, t.buyerId, t.itemId);
  }

  // ---------------------------------------------------------------------------------------
  // Profiles
  // ---------------------------------------------------------------------------------------

  /** `{item_id: item for item in items}`: a later row with the same id replaces an earlier one. */
  function ItemIndex(items: seq<Item>): (m: map<int, Item>)
    ensures forall id :: id in m <==> exists i :: 0 <= i < |items| && items[i].itemId == id
    ensures forall id :: id in m ==> m[id].itemId == id && m[id] in items
  {
    if items == [] then map[]
    else
      var last := items[|items| - 1];
      var m0 := ItemIndex(items[..|items| - 1]);
      assert forall i :: 0 <= i < |items| - 1 ==> items[..|items| - 1][i] == items[i];
      m0[last.itemId := last]
  }

  /** The items of `ids` that are in the item map and belong to category `c`. */
  function CategoryItems(ids: set<int>, items: map<int, Item>, c: Category): set<int>
  {
    set id | id in ids && id in items && items[id].category == c
  }

  /** The profile entry for `c`: bid items and liked items of that category, each set counted once. */
  function ProfileCount(bids: set<int>, liked: set<int>, items: map<int, Item>, c: Category): nat
  {
    |CategoryItems(bids, items, c)| + |CategoryItems(liked, items, c)|
  }

  ghost predicate IsProfileOf(p: Profile, bids: set<int>, liked: set<int>, items: map<int, Item>)
  {
    && PositiveCounts(p)
    && forall c :: Count(p, c) == ProfileCount(bids, liked, items, c)
  }

  /**
   * Each category entry counts the category's items in the union of the two sets once and those
   * in both sets once more: an item both bid on and liked adds 2.
   */
  lemma ProfileCountUnion(bids: set<int>, liked: set<int>, items: map<int, Item>, c: Category)
    ensures ProfileCount(bids, liked, items, c)
      == |CategoryItems(bids + liked, items, c)| + |CategoryItems(bids * liked, items, c)|
  {
    var a, b := CategoryItems(bids, items, c), CategoryItems(liked, items, c);
    assert CategoryItems(bids + liked, items, c) == a + b;
    assert CategoryItems(bids * liked, items, c) == a * b;
    SetUnionIntersection(a, b);
  }

  lemma {:induction false} SetUnionIntersection<T>(a: set<T>, b: set<T>)
    ensures |a + b| + |a * b| == |a| + |b|
  {
    if a != {} {
      var x :| x in a;
      var a' := a - {x};
      SetUnionIntersection(a', b);
      assert a == a' + {x};
      if x in b {
        assert a + b == a' + b;
        assert a * b == (a' * b) + {x};
      } else {
        assert a + b == (a' + b) + {x};
        assert a * b == a' * b;
      }
    }
  }

  /**
   * Only items present in the item map count: no entry exceeds twice the number of known
   * items, since each item counts at most once as a bid and once as a like.
   */
  lemma ProfileCountBound(bids: set<int>, liked: set<int>, items: map<int, Item>, c: Category)
    ensures ProfileCount(bids, liked, items, c) <= 2 * |items|
  {
    assert CategoryItems(bids, items, c) <= items.Keys;
    assert CategoryItems(liked, items, c) <= items.Keys;
    SubsetCard(CategoryItems(bids, items, c), items.Keys);
    SubsetCard(CategoryItems(liked, items, c), items.Keys);
  }

  lemma SubsetCard<T>(a: set<T>, b: set<T>)
    requires a <= b
    ensures |a| <= |b|
  {
    assert b == a + (b - a);
  }

  /** Adding one more item id to a set of ids changes one category's count by its membership. */
  lemma CategoryItemsAdd(done: set<int>, id: int, items: map<int, Item>, c: Category)
    requires id !in done
    ensures |CategoryItems(done + {id}, items, c)|
      == |CategoryItems(done, items, c)| + (if id in items && items[id].category == c then 1 else 0)
  {
    if id in items && items[id].category == c {
      assert CategoryItems(done + {id}, items, c) == CategoryItems(done, items, c) + {id};
    } else {
      assert CategoryItems(done + {id}, items, c) == CategoryItems(done, items, c);
    }
  }

  // ---------------------------------------------------------------------------------------
  // Feature columns
  // ---------------------------------------------------------------------------------------

  /** Code-point lexicographic order on strings (Python's `<` on `str`). */
  predicate LexLess(a: string, b: string)
  {
    if a == [] then b != []
    else if b == [] then false
    else if a[0] < b[0] then true
    else a[0] == b[0] && LexLess(a[1..], b[1..])
  }

  lemma {:induction false} LexLessTransitive(a: string, b: string, c: string)
    requires LexLess(a, b) && LexLess(b, c)
    ensures LexLess(a, c)
  {
    if a != [] && b != [] && c != [] && a[0] == b[0] && b[0] == c[0] {
      LexLessTransitive(a[1..], b[1..], c[1..]);
    }
  }

  /** The seventeen categories in ascending order of their value strings. */
  const CategoryOrder: seq<Category> := [
    BEAUTY, BOOK, CLOTHES, DIGITAL, ETC, FOOD_PROCESSED, FURNITURE, GAME_HOBBY, HEALTH_FOOD,
    HOME_APPLIANCE, KIDS, LIVING_KITCHEN, PET, PLANT, SPORTS, TICKET, WOMEN_ACC]

  ghost predicate SortedByName(s: seq<Category>)
  {
    forall i, j :: 0 <= i < j < |s| ==> LexLess(s[i].Name(), s[j].Name())
  }

  lemma CategoryOrderAdjacent()
    ensures forall i :: 0 <= i < |CategoryOrder| - 1 ==> LexLess(CategoryOrder[i].Name(), CategoryOrder[i + 1].Name())
  {
    assert LexLess("BEAUTY", "BOOK");
    assert LexLess("BOOK", "CLOTHES");
    assert LexLess("CLOTHES", "DIGITAL");
    assert LexLess("DIGITAL", "ETC");
    assert LexLess("ETC", "FOOD_PROCESSED");
    assert LexLess("FOOD_PROCESSED", "FURNITURE");
    assert LexLess("FURNITURE", "GAME_HOBBY");
    assert LexLess("GAME_HOBBY", "HEALTH_FOOD");
    assert LexLess("HEALTH_FOOD", "HOME_APPLIANCE");
    assert LexLess("HOME_APPLIANCE", "KIDS");
    assert LexLess("KIDS", "LIVING_KITCHEN");
    assert LexLess("LIVING_KITCHEN", "PET");
    assert LexLess("PET", "PLANT");
    assert LexLess("PLANT", "SPORTS");
    assert LexLess("SPORTS", "TICKET");
    assert LexLess("TICKET", "WOMEN_ACC");
  }

  lemma {:induction false} ChainSorted(s: seq<Category>)
    requires forall i :: 0 <= i < |s| - 1 ==> LexLess(s[i].Name(), s[i + 1].Name())
    ensures SortedByName(s)
  {
    if |s| > 1 {
      var t := s[1..];
      ChainSorted(t);
      forall j | 0 < j < |s|
        ensures LexLess(s[0].Name(), s[j].Name())
      {
        if j > 1 {
          assert LexLess(s[1].Name(), s[j].Name()) by { assert t[0] == s[1] && t[j - 1] == s[j]; }
          LexLessTransitive(s[0].Name(), s[1].Name(), s[j].Name());
        }
      }
      forall i, j | 0 < i < j < |s|
        ensures LexLess(s[i].Name(), s[j].Name())
      {
        assert t[i - 1] == s[i] && t[j - 1] == s[j];
      }
    }
  }

  lemma {:induction false} LexLessIrreflexive(a: string)
    ensures !LexLess(a, a)
  {
    if a != [] {
      LexLessIrreflexive(a[1..]);
    }
  }

  /** Strictly ascending names make a sequence duplicate-free. */
  lemma SortedDistinct(s: seq<Category>)
    requires SortedByName(s)
    ensures Distinct(s)
  {
    forall i, j | 0 <= i < j < |s|
      ensures s[i] != s[j]
    {
      LexLessIrreflexive(s[i].Name());
    }
  }

  lemma CategoryOrderComplete(c: Category)
    ensures c in CategoryOrder
  {
    match c
    case BEAUTY => assert CategoryOrder[0] == c;
    case BOOK => assert CategoryOrder[1] == c;
    case CLOTHES => assert CategoryOrder[2] == c;
    case DIGITAL => assert CategoryOrder[3] == c;
    case ETC => assert CategoryOrder[4] == c;
    case FOOD_PROCESSED => assert CategoryOrder[5] == c;
    case FURNITURE => assert CategoryOrder[6] == c;
    case GAME_HOBBY => assert CategoryOrder[7] == c;
    case HEALTH_FOOD => assert CategoryOrder[8] == c;
    case HOME_APPLIANCE => assert CategoryOrder[9] == c;
    case KIDS => assert CategoryOrder[10] == c;
    case LIVING_KITCHEN => assert CategoryOrder[11] == c;
    case PET => assert CategoryOrder[12] == c;
    case PLANT => assert CategoryOrder[13] == c;
    case SPORTS => assert CategoryOrder[14] == c;
    case TICKET => assert CategoryOrder[15] == c;
    case WOMEN_ACC => assert CategoryOrder[16] == c;
  }

  /** The elements of `s` that are in `keep`, in the order of `s`. */
  function FilterIn(s: seq<Category>, keep: set<Category>): (r: seq<Category>)
    ensures forall c :: c in r <==> c in s && c in keep
  {
    if s == [] then []
    else if s[0] in keep then [s[0]] + FilterIn(s[1..], keep)
    else FilterIn(s[1..], keep)
  }

  lemma {:induction false} FilterInSorted(s: seq<Category>, keep: set<Category>)
    requires SortedByName(s)
    ensures SortedByName(FilterIn(s, keep))
  {
    if s != [] {
      var t := s[1..];
      assert SortedByName(t) by {
        forall i, j | 0 <= i < j < |t| ensures LexLess(t[i].Name(), t[j].Name()) {
          assert t[i] == s[i + 1] && t[j] == s[j + 1];
        }
      }
      FilterInSorted(t, keep);
      var rest := FilterIn(t, keep);
      if s[0] in keep {
        var r := [s[0]] + rest;
        forall i, j | 0 <= i < j < |r| ensures LexLess(r[i].Name(), r[j].Name()) {
          if i > 0 {
            assert r[i] == rest[i - 1] && r[j] == rest[j - 1];
          } else {
            assert r[j] in t;
            var k :| 0 <= k < |t| && t[k] == r[j];
            assert s[k + 1] == r[j];
          }
        }
      }
    }
  }

  /** `sorted(all_categories)`: the categories seen, ascending by value string. */
  function SortedColumns(seen: set<Category>): seq<Category>
  {
    FilterIn(CategoryOrder, seen)
  }

  /** The columns are exactly the categories seen, strictly ascending, hence without repeats. */
  lemma SortedColumnsSpec(seen: set<Category>)
    ensures forall c :: c in SortedColumns(seen) <==> c in seen
    ensures SortedByName(SortedColumns(seen))
    ensures Distinct(SortedColumns(seen))
  {
    forall c | c in seen ensures c in CategoryOrder {
      CategoryOrderComplete(c);
    }
    CategoryOrderAdjacent();
    ChainSorted(CategoryOrder);
    FilterInSorted(CategoryOrder, seen);
    SortedDistinct(SortedColumns(seen));
  }

  /** `{x: idx for idx, x in enumerate(s)}`: each element maps to its last position. */
  function PositionMap<T(!new)>(s: seq<T>): (m: map<T, nat>)
    ensures forall x :: x in m <==> x in s
    ensures forall x :: x in m ==> m[x] < |s| && s[m[x]] == x
  {
    if s == [] then map[]
    else
      var init := s[..|s| - 1];
      var m0 := PositionMap(init);
      assert forall i :: 0 <= i < |init| ==> init[i] == s[i];
      m0[s[|s| - 1] := |s| - 1]
  }

  /** Without repeated elements, every element maps to its own position. */
  lemma PositionMapDistinct<T(!new)>(s: seq<T>, i: int)
    requires Distinct(s) && 0 <= i < |s|
    ensures s[i] in PositionMap(s) && PositionMap(s)[s[i]] == i
  {
    var m := PositionMap(s);
    var x := s[i];
    assert x in s;
    assert s[m[x]] == x;
  }

  /** The categories keyed in any profile of `order`. */
  function SeenCategories(order: seq<int>, profiles: map<int, Profile>): set<Category>
  {
    if order == [] then {}
    else
      var u := order[|order| - 1];
      SeenCategories(order[..|order| - 1], profiles) + (if u in profiles then profiles[u].Keys else {})
  }
}
