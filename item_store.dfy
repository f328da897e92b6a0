/**
  The in-memory item list that the route handlers share, and the list
  operations they apply to it: `find` by id, `maxOfOrNull` over the ids,
  `add` at the end and `removeIf` on a matching id.
 */
module ItemStore {
  import opened Wrappers

  /** One stored record: a store-assigned id and the client's name. */
  datatype Item = Item(id: int, name: string)

  /** Kotlin's `Char.isWhitespace` on the JVM: Java whitespace or a Unicode space character. */
  predicate IsWhitespace(c: char)
    ensures c == ' ' || c == '\t' || c == '\n' || c == '\r' ==> IsWhitespace(c)
    ensures '0' <= c <= '9' || 'A' <= c <= 'Z' || 'a' <= c <= 'z' ==> !IsWhitespace(c)
  {
    var n := c as int;
    (0x09 <= n <= 0x0D) || (0x1C <= n <= 0x20) || n == 0xA0 || n == 0x1680
    || (0x2000 <= n <= 0x200A) || n == 0x2028 || n == 0x2029 || n == 0x202F
    || n == 0x205F || n == 0x3000
  }

  /** A blank string: empty, or whitespace only. */
  predicate IsBlank(s: string)
    ensures |s| == 0 ==> IsBlank(s)
    ensures forall i | 0 <= i < |s| :: !IsWhitespace(s[i]) ==> !IsBlank(s)
  {
    forall i | 0 <= i < |s| :: IsWhitespace(s[i])
  }

  /** Some item in the list carries the id. */
  predicate HasId(items: seq<Item>, id: int)
  {
    exists k | 0 <= k < |items| :: items[k].id == id
  }

  predicate UniqueIds(items: seq<Item>)
  {
    forall i, j | 0 <= i < j < |items| :: items[i].id != items[j].id
  }

  predicate PositiveIds(items: seq<Item>)
  {
    forall k | 0 <= k < |items| :: items[k].id > 0
  }

  predicate NamedItems(items: seq<Item>)
  {
    forall k | 0 <= k < |items| :: !IsBlank(items[k].name)
  }

  /** What holds of the list between requests: ids distinct and positive, no blank name. */
  predicate Inv(items: seq<Item>)
  {
    UniqueIds(items) && PositiveIds(items) && NamedItems(items)
  }

  /** The three items the list starts with. */
  function SeedItems(): (s: seq<Item>)
    ensures Inv(s)
    ensures |s| == 3
    ensures forall k | 0 <= k < |s| :: s[k].id == k + 1
    ensures s[0].name == "First item" && s[1].name == "Second item" && s[2].name == "Third item"
  {
    var s := [Item(1, "First item"), Item(2, "Second item"), Item(3, "Third item")];
    assert !IsWhitespace(s[0].name[0]) && !IsWhitespace(s[1].name[0]) && !IsWhitespace(s[2].name[0]);
    s
  }

  /** `maxOfOrNull { it.id }`: the largest id, or None for an empty list. */
  function MaxOfIds(items: seq<Item>): (m: Option<int>)
    ensures m.None? <==> items == []
    ensures m.Some? ==> HasId(items, m.value)
    ensures m.Some? ==> forall k | 0 <= k < |items| :: items[k].id <= m.value
  {
    if items == [] then None
    else
      match MaxOfIds(items[1..])
      case None => Some(items[0].id)
      case Some(rest) =>
        assert HasId(items, rest) by {
          var k :| 0 <= k < |items[1..]| && items[1..][k].id == rest;
          assert items[k + 1].id == rest;
        }
        Some(if items[0].id >= rest then items[0].id else rest)
  }

  /** The id a create assigns: `(maxOfOrNull ?: 0) + 1`. */
  function NextId(items: seq<Item>): (n: int)
    ensures items == [] ==> n == 1
    ensures items != [] ==> HasId(items, n - 1)
    ensures forall k | 0 <= k < |items| :: items[k].id < n
  {
    match MaxOfIds(items)
    case None => 1
    case Some(m) => m + 1
  }

  /** `find { it.id == id }`: the first item carrying the id, if any. */
  function FindById(items: seq<Item>, id: int): (r: Option<Item>)
    ensures r.None? <==> !HasId(items, id)
    ensures r.Some? ==> exists k | 0 <= k < |items| :: items[k] == r.value && r.value.id == id
                                 && forall j | 0 <= j < k :: items[j].id != id
  {
    if items == [] then None
    else if items[0].id == id then Some(items[0])
    else
      var r := FindById(items[1..], id);
      assert r.None? <==> !HasId(items, id) by {
        if HasId(items, id) {
          var k :| 0 <= k < |items| && items[k].id == id;
          assert items[1..][k - 1].id == id;
        }
        if HasId(items[1..], id) {
          var k :| 0 <= k < |items[1..]| && items[1..][k].id == id;
          assert items[k + 1].id == id;
        }
      }
      assert r.Some? ==> exists k | 0 <= k < |items| :: items[k] == r.value && r.value.id == id
                                   && forall j | 0 <= j < k :: items[j].id != id by {
        if r.Some? {
          var k :| 0 <= k < |items[1..]| && items[1..][k] == r.value && r.value.id == id
                   && forall j | 0 <= j < k :: items[1..][j].id != id;
          assert items[k + 1] == r.value;
          assert forall j | 0 <= j < k + 1 :: items[j].id != id by {
            forall j | 0 <= j < k + 1 ensures items[j].id != id {
              if j > 0 { assert items[j] == items[1..][j - 1]; }
            }
          }
        }
      }
      r
  }

  /** `removeIf { it.id == id }`: the list without the items carrying the id, in order. */
  function RemoveById(items: seq<Item>, id: int): (r: seq<Item>)
    ensures forall x :: x in r <==> x in items && x.id != id
    ensures |r| <= |items|
    ensures |r| < |items| <==> HasId(items, id)
    ensures !HasId(items, id) ==> r == items
  {
    if items == [] then []
    else
      var rest := RemoveById(items[1..], id);
      assert HasId(items, id) <==> items[0].id == id || HasId(items[1..], id) by {
        if HasId(items, id) && items[0].id != id {
          var k :| 0 <= k < |items| && items[k].id == id;
          assert items[1..][k - 1].id == id;
        }
        if HasId(items[1..], id) {
          var k :| 0 <= k < |items[1..]| && items[1..][k].id == id;
          assert items[k + 1].id == id;
        }
      }
      assert items == [items[0]] + items[1..];
      if items[0].id == id then rest else [items[0]] + rest
  }

  /** With distinct ids, the tail keeps them distinct and does not repeat the head's id. */
  lemma UniqueTail(items: seq<Item>)
    requires UniqueIds(items)
    requires items != []
    ensures UniqueIds(items[1..])
    ensures !HasId(items[1..], items[0].id)
  {
  }

  /** With distinct ids, removing the id of the item at k deletes exactly that one slot. */
  lemma {:induction false} RemoveAt(items: seq<Item>, k: nat)
    requires UniqueIds(items)
    requires k < |items|
    ensures RemoveById(items, items[k].id) == items[..k] + items[k + 1..]
  {
    var id := items[k].id;
    var tail := items[1..];
    UniqueTail(items);
    if k == 0 {
      assert RemoveById(items, id) == RemoveById(tail, id);
      assert items[..0] + items[1..] == tail;
    } else {
      assert tail[k - 1] == items[k];
      assert items[0].id != id;
      assert RemoveById(items, id) == [items[0]] + RemoveById(tail, id);
      RemoveAt(tail, k - 1);
      assert [items[0]] + (tail[..k - 1] + tail[k..]) == items[..k] + items[k + 1..];
    }
  }

  /** Dropping one slot keeps the list invariant. */
  lemma DropPreservesInv(items: seq<Item>, k: nat)
    requires Inv(items)
    requires k < |items|
    ensures Inv(items[..k] + items[k + 1..])
  {
  }

  /** Deleting an id keeps the list invariant. */
  lemma {:induction false} RemovePreservesInv(items: seq<Item>, id: int)
    requires Inv(items)
    ensures Inv(RemoveById(items, id))
  {
    if HasId(items, id) {
      var k :| 0 <= k < |items| && items[k].id == id;
      RemoveAt(items, k);
      DropPreservesInv(items, k);
    }
  }

  /** Appending an item with the next id and a non-blank name keeps the list invariant. */
  lemma AppendPreservesInv(items: seq<Item>, name: string)
    requires Inv(items)
    requires !IsBlank(name)
    ensures Inv(items + [Item(NextId(items), name)])
  {
  }

  /** A lookup of the id just assigned finds the item just appended. */
  lemma {:induction false} FindAppended(items: seq<Item>, name: string)
    ensures FindById(items + [Item(NextId(items), name)], NextId(items)) == Some(Item(NextId(items), name))
  {
    var n := NextId(items);
    var r := items + [Item(n, name)];
    assert !HasId(items, n);
    assert r[|items|] == Item(n, name);
    var f := FindById(r, n);
    var k :| 0 <= k < |r| && r[k] == f.value && f.value.id == n
             && forall j | 0 <= j < k :: r[j].id != n;
    assert k == |items|;
  }

  /** With distinct ids, a lookup of an item's id finds that very item. */
  lemma FindUnique(items: seq<Item>, k: nat)
    requires UniqueIds(items)
    requires k < |items|
    ensures FindById(items, items[k].id) == Some(items[k])
  {
  }

  /**
    Ids are reused: after the item holding the largest id is deleted, the
    next create gets an id no larger than the deleted one.
   */
  lemma IdReuseBound(items: seq<Item>)
    requires Inv(items)
    requires items != []
    ensures NextId(RemoveById(items, NextId(items) - 1)) <= NextId(items) - 1
  {
  }

  /** On the seeded list, deleting item 3 and creating another hands out id 3 again. */
  lemma SeededIdReuse()
    ensures NextId(SeedItems()) == 4
    ensures NextId(RemoveById(SeedItems(), 3)) == 3
  {
  }

  /** The `items` list owned by the routing block; every handler reads or updates it. */
  class Store {
    var items: seq<Item>

    ghost predicate Valid()
      reads this
    {
      Inv(items)
    }

    /** The list starts with the three seeded items. */
    constructor ()
      ensures Valid()
      ensures items == SeedItems()
    {
      items := SeedItems();
    }

    /** The whole list, in insertion order. */
    method List() returns (r: seq<Item>)
      ensures r == items
    {
      r := items;
    }

    /** The item carrying the id, or None when no item does. */
    method Get(id: int) returns (r: Option<Item>)
      requires Valid()
      ensures r.None? <==> !HasId(items, id)
      ensures r.Some? ==> r.value in items && r.value.id == id
      ensures forall k | 0 <= k < |items| && items[k].id == id :: r == Some(items[k])
    {
      r := FindById(items, id);
      forall k | 0 <= k < |items| && items[k].id == id ensures r == Some(items[k]) {
        FindUnique(items, k);
      }
    }

    /** Appends an item with id one past the current maximum (1 when empty) and the name as given. */
    method Create(name: string) returns (item: Item)
      requires Valid()
      requires !IsBlank(name)
      modifies this
      ensures Valid()
      ensures item == Item(NextId(old(items)), name)
      ensures forall k | 0 <= k < |old(items)| :: old(items)[k].id < item.id
      ensures items == old(items) + [item]
    {
      AppendPreservesInv(items, name);
      item := Item(NextId(items), name);
      items := items + [item];
    }

    /** Removes the items carrying the id and reports whether any was removed. */
    method Delete(id: int) returns (removed: bool)
      requires Valid()
      modifies this
      ensures Valid()
      ensures removed <==> HasId(old(items), id)
      ensures !removed ==> items == old(items)
      ensures removed ==> exists k | 0 <= k < |old(items)| :: old(items)[k].id == id
                                    && items == old(items)[..k] + old(items)[k + 1..]
      ensures !HasId(items, id)
    {
      RemovePreservesInv(items, id);
      var rest := RemoveById(items, id);
      removed := |rest| < |items|;
      if removed {
        var k :| 0 <= k < |items| && items[k].id == id;
        RemoveAt(items, k);
      }
      items := rest;
    }
  }
}
