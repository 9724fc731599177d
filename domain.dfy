/**
 * The records the intelligence layer reads: the enumerations of models/enums.py and the
 * columns of models/db_models.py and models/api_models.py that the core uses.
 * Timestamps are whole seconds since an arbitrary epoch.
 */
module Domain {

  /** The seventeen item categories. */
  datatype Category =
    | HOME_APPLIANCE | HEALTH_FOOD | BEAUTY | FOOD_PROCESSED | PET | DIGITAL
    | LIVING_KITCHEN | WOMEN_ACC | SPORTS | PLANT | GAME_HOBBY | TICKET
    | FURNITURE | BOOK | KIDS | CLOTHES | ETC
  {
    /** The enumeration value string (`category.value`). */
    function Name(): string
    {
      match this
      case HOME_APPLIANCE => "HOME_APPLIANCE"
      case HEALTH_FOOD => "HEALTH_FOOD"
      case BEAUTY => "BEAUTY"
      case FOOD_PROCESSED => "FOOD_PROCESSED"
      case PET => "PET"
      case DIGITAL => "DIGITAL"
      case LIVING_KITCHEN => "LIVING_KITCHEN"
      case WOMEN_ACC => "WOMEN_ACC"
      case SPORTS => "SPORTS"
      case PLANT => "PLANT"
      case GAME_HOBBY => "GAME_HOBBY"
      case TICKET => "TICKET"
      case FURNITURE => "FURNITURE"
      case BOOK => "BOOK"
      case KIDS => "KIDS"
      case CLOTHES => "CLOTHES"
      case ETC => "ETC"
    }
  }

  datatype ItemStatus = BIDDING | SUCCESS | FAIL

  /** One row of the `item` table (with the joined region's `sigungu`). */
  datatype Item = Item(
    itemId: int,
    name: string,
    title: string,
    category: Category,
    currentPrice: int,
    status: ItemStatus,
    endTime: int,
    createdAt: int,
    viewCount: int,
    bidCount: int,
    regionName: string)

  /** One row of `item_transaction`: a bid. */
  datatype BidTransaction = BidTransaction(buyerId: int, itemId: int, bidPrice: int)

  /** One row of `user_liked`: a wishlist entry whose flag may be off. */
  datatype WishlistEntry = WishlistEntry(userId: int, itemId: int, liked: bool)

  /** What the recommender returns per item. */
  datatype ItemRecommendation = ItemRecommendation(
    itemId: int,
    name: string,
    title: string,
    category: Category,
    currentPrice: int,
    endTime: int,
    status: ItemStatus,
    regionName: string,
    viewCount: int,
    bidCount: int,
    score: nat)

  /** The recommendation record built from an item row. */
  function ToRecommendation(item: Item, score: nat): (r: ItemRecommendation)
    ensures r.itemId == item.itemId && r.status == item.status && r.endTime == item.endTime
    ensures r.bidCount == item.bidCount && r.viewCount == item.viewCount && r.score == score
  {
    ItemRecommendation(item.itemId, item.name, item.title, item.category, item.currentPrice,
      item.endTime, item.status, item.regionName, item.viewCount, item.bidCount, score)
  }

  /** Seconds in an hour and in a day. */
  const HOUR: int := 3600
  const DAY: int := 86400
}
