/**
  The four route handlers registered in the routing block. Each reads its
  parameters, rejects malformed ones before touching the list, and maps the
  list's answer to a status and a body.
 */
module Routes {
  import opened Wrappers
  import opened ItemStore

  /** The statuses the handlers answer with. */
  datatype Status = OK | Created | BadRequest | NotFound
  {
    function Code(): (c: int)
      ensures 200 <= c < 500
      ensures c < 300 <==> (this == OK || this == Created)
    {
      match this
      case OK => 200
      case Created => 201
      case BadRequest => 400
      case NotFound => 404
    }
  }

  /** A response body: the item array, one item, or a plain message. */
  datatype Body = ItemArray(items: seq<Item>) | ItemObject(item: Item) | Message(text: string)

  datatype Response = Response(status: Status, body: Body)

  const InvalidId: string := "Invalid id"
  const ItemNotFound: string := "Item not found"
  const MissingName: string := "Missing or empty 'name' query parameter"
  const ItemDeleted: string := "Item deleted"

  /** The range of Kotlin's 32-bit `Int`. */
  const IntMin: int := -0x8000_0000
  const IntMax: int := 0x7FFF_FFFF

  predicate IsIntValue(v: int)
  {
    IntMin <= v <= IntMax
  }

  /**
    `toIntOrNull` on the `id` path segment. The segment arrives already read
    as a decimal integer of any size, None when it is missing or not an
    integer; a value outside `Int` is refused as `toIntOrNull` refuses it.
   */
  function ToIntOrNull(segment: Option<int>): (r: Option<int>)
    ensures r.Some? <==> segment.Some? && IsIntValue(segment.value)
    ensures r.Some? ==> r == segment
  {
    if segment.Some? && IsIntValue(segment.value) then segment else None
  }

  /** Kotlin's `isNullOrBlank` on the `name` query parameter. */
  predicate IsNullOrBlank(name: Option<string>)
    ensures name.None? ==> IsNullOrBlank(name)
    ensures name == Some("") ==> IsNullOrBlank(name)
    ensures name.Some? ==> forall i | 0 <= i < |name.value| ::
              !IsWhitespace(name.value[i]) ==> !IsNullOrBlank(name)
  {
    name.None? || IsBlank(name.value)
  }

  /** GET /items: the whole list, in insertion order; nothing changes. */
  method GetItems(store: Store) returns (resp: Response)
    ensures resp.status == OK && resp.body.ItemArray?
    ensures resp.body.items == store.items
  {
    var all := store.List();
    resp := Response(OK, ItemArray(all));
  }

  /**
    GET /items/{id}: `segment` is the path segment read as an integer, None
    when it is missing or not an integer.
   */
  method GetItem(store: Store, segment: Option<int>) returns (resp: Response)
    requires store.Valid()
    ensures segment.None? || !IsIntValue(segment.value) ==> resp == Response(BadRequest, Message(InvalidId))
    ensures segment.Some? && IsIntValue(segment.value) && !HasId(store.items, segment.value) ==>
              resp == Response(NotFound, Message(ItemNotFound))
    ensures forall k | 0 <= k < |store.items| && segment == Some(store.items[k].id) && IsIntValue(store.items[k].id) ::
              resp == Response(OK, ItemObject(store.items[k]))
  {
    var id := ToIntOrNull(segment);
    if id.None? {
      return Response(BadRequest, Message(InvalidId));
    }
    var item := store.Get(id.value);
    if item.None? {
      resp := Response(NotFound, Message(ItemNotFound));
    } else {
      resp := Response(OK, ItemObject(item.value));
    }
  }

  /**
    POST /items?name=...: a missing or blank name is refused and the list is
    left alone; otherwise the item is created under the next id, the name
    stored exactly as given.
   */
  method PostItem(store: Store, name: Option<string>) returns (resp: Response)
    requires store.Valid()
    modifies store
    ensures store.Valid()
    ensures IsNullOrBlank(name) ==> resp == Response(BadRequest, Message(MissingName))
                                    && store.items == old(store.items)
    ensures !IsNullOrBlank(name) ==>
              var item := Item(NextId(old(store.items)), name.value);
              resp == Response(Created, ItemObject(item)) && store.items == old(store.items) + [item]
  {
    if IsNullOrBlank(name) {
      return Response(BadRequest, Message(MissingName));
    }
    var item := store.Create(name.value);
    resp := Response(Created, ItemObject(item));
  }

  /**
    DELETE /items/{id}: a missing or non-integer id is refused before the
    list is touched; otherwise the matching item is removed, and the answer
    says whether there was one.
   */
  method DeleteItem(store: Store, segment: Option<int>) returns (resp: Response)
    requires store.Valid()
    modifies store
    ensures store.Valid()
    ensures segment.None? || !IsIntValue(segment.value) ==>
              resp == Response(BadRequest, Message(InvalidId)) && store.items == old(store.items)
    ensures segment.Some? && IsIntValue(segment.value) && !HasId(old(store.items), segment.value) ==>
              resp == Response(NotFound, Message(ItemNotFound)) && store.items == old(store.items)
    ensures segment.Some? && IsIntValue(segment.value) && HasId(old(store.items), segment.value) ==>
              resp == Response(OK, Message(ItemDeleted))
              && exists k | 0 <= k < |old(store.items)| :: old(store.items)[k].id == segment.value
                   && store.items == old(store.items)[..k] + old(store.items)[k + 1..]
    ensures segment.Some? && IsIntValue(segment.value) ==> !HasId(store.items, segment.value)
  {
    var id := ToIntOrNull(segment);
    if id.None? {
      return Response(BadRequest, Message(InvalidId));
    }
    var removed := store.Delete(id.value);
    if removed {
      resp := Response(OK, Message(ItemDeleted));
    } else {
      resp := Response(NotFound, Message(ItemNotFound));
    }
  }

  /**
    A client of the handlers' contracts: a successful POST followed by a GET
    of the id it returned answers 200 with the same id and name when that id
    is an `Int`, and 400 "Invalid id" when it is not.
   */
  method PostThenGet(store: Store, name: string) returns (created: Response, fetched: Response)
    requires store.Valid()
    requires !IsBlank(name)
    modifies store
    ensures store.Valid()
    ensures created.status == Created && created.body.ItemObject? && created.body.item.name == name
    ensures IsIntValue(created.body.item.id) ==> fetched == Response(OK, created.body)
    ensures !IsIntValue(created.body.item.id) ==> fetched == Response(BadRequest, Message(InvalidId))
  {
    created := PostItem(store, Some(name));
    var k := |store.items| - 1;
    assert store.items[k] == created.body.item;
    fetched := GetItem(store, Some(created.body.item.id));
  }

  /**
    Deleting the same id twice: for an `Int` id the second answer is 404 and
    leaves the list as the first left it, so the list ends without the id's
    item and otherwise as it was; any other id is refused both times.
   */
  method DeleteTwice(store: Store, id: int) returns (first: Response, second: Response)
    requires store.Valid()
    modifies store
    ensures store.Valid()
    ensures !IsIntValue(id) ==> first == second == Response(BadRequest, Message(InvalidId))
                                && store.items == old(store.items)
    ensures IsIntValue(id) ==> !HasId(store.items, id)
    ensures IsIntValue(id) ==> second == Response(NotFound, Message(ItemNotFound))
    ensures IsIntValue(id) ==> (first.status == OK <==> HasId(old(store.items), id))
    ensures IsIntValue(id) && !HasId(old(store.items), id) ==> store.items == old(store.items)
    ensures IsIntValue(id) && HasId(old(store.items), id) ==>
              exists k | 0 <= k < |old(store.items)| :: old(store.items)[k].id == id
                && store.items == old(store.items)[..k] + old(store.items)[k + 1..]
  {
    first := DeleteItem(store, Some(id));
    second := DeleteItem(store, Some(id));
  }
}
