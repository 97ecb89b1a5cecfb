/** The contact store (`AddressBook` in main.py): a dictionary from name to
    record. A Python dictionary lists its keys in insertion order: assigning
    to a key already present keeps its place, and a key deleted and added
    again goes last. That order shows in the listing, so the model keeps the
    keys in a sequence beside the map. */
module Book {
  import opened Errors
  import opened Text
  import opened Records

  predicate Distinct(keys: seq<string>)
  {
    forall i, j :: 0 <= i < j < |keys| ==> keys[i] != keys[j]
  }

  /** The position of the first occurrence of `key`. */
  function IndexOf(keys: seq<string>, key: string): (i: nat)
    requires key in keys
    ensures i < |keys| && keys[i] == key
    ensures forall j :: 0 <= j < i ==> keys[j] != key
  {
    if keys[0] == key then 0 else 1 + IndexOf(keys[1..], key)
  }

  /** The key order after deleting `key` from the dictionary. */
  function RemoveKey(keys: seq<string>, key: string): (r: seq<string>)
    ensures key !in r
    ensures forall k :: k != key ==> (k in r <==> k in keys)
    ensures key !in keys ==> r == keys
    ensures Distinct(keys) ==> Distinct(r)
    ensures Distinct(keys) && key in keys ==> |r| == |keys| - 1
  {
    if keys == [] then []
    else if keys[0] == key then RemoveKey(keys[1..], key)
    else
      var rest := RemoveKey(keys[1..], key);
      assert Distinct(keys) ==> forall m :: 0 <= m < |keys| - 1 ==> keys[1..][m] != keys[0];
      assert Distinct(keys) ==> keys[0] !in rest;
      assert Distinct(keys) ==> forall j :: 0 <= j < |rest| ==> rest[j] != keys[0];
      [keys[0]] + rest
  }

  /** Deleting a key keeps the other keys in their dictionary order: the
      result is the old order with just that key's entry cut out. */
  lemma {:induction false} RemoveKeyKeepsOrder(keys: seq<string>, key: string)
    requires Distinct(keys) && key in keys
    ensures RemoveKey(keys, key) == keys[..IndexOf(keys, key)] + keys[IndexOf(keys, key) + 1..]
    decreases |keys|
  {
    var tail := keys[1..];
    assert forall m :: 0 <= m < |tail| ==> tail[m] != keys[0];
    if keys[0] == key {
      assert key !in tail;
      assert keys[..0] + tail == tail;
    } else {
      assert key in tail;
      assert Distinct(tail) by {
        forall i, j | 0 <= i < j < |tail| ensures tail[i] != tail[j] {
          assert tail[i] == keys[i + 1] && tail[j] == keys[j + 1];
        }
      }
      RemoveKeyKeepsOrder(tail, key);
      var p := IndexOf(tail, key);
      assert keys[..p + 1] == [keys[0]] + tail[..p];
      assert keys[p + 2..] == tail[p + 1..];
    }
  }

  /** Deleting a key that is already gone changes nothing. */
  lemma RemoveKeyIdempotent(keys: seq<string>, key: string)
    ensures RemoveKey(RemoveKey(keys, key), key) == RemoveKey(keys, key)
  {
  }

  class AddressBook {
    /** The keys of `data` in the order the dictionary iterates them. */
    var order: seq<string>
    var data: map<string, Record>

    /** Every key appears once in `order`, `order` and `data` hold the same
        keys, and each record sits under its own name. */
    ghost predicate Valid()
      reads this
    {
      && Distinct(order)
      && (forall k :: k in order <==> k in data)
      && (forall k :: k in data ==> data[k].name == k)
    }

    /** The invariant that phone validation exists to keep: every phone of every contact
        has ten digits. */
    ghost predicate PhonesValid()
      reads this, data.Values
    {
      forall k :: k in data ==> AllValid(data[k].phones)
    }

    /** `AddressBook()`: an empty book. */
    constructor ()
      ensures Valid() && PhonesValid() && order == [] && data == map[]
    {
      order := [];
      data := map[];
    }

    /** `find`: `self.data.get(name)`. */
    function Find(name: string): (r: Option<Record>)
      reads this
      requires Valid()
      ensures r.Some? <==> name in data
      ensures r.Some? ==> r.value == data[name] && r.value.name == name
    {
      if name in data then Some(data[name]) else None
    }

    /** `add_record`: stores the record under its name, replacing whatever
        record was there before; a new name goes to the end of the listing
        order, a name already present keeps its place. */
    method AddRecord(r: Record)
      requires Valid()
      modifies this
      ensures Valid()
      ensures data == old(data)[r.name := r]
      ensures order == if r.name in old(data) then old(order) else old(order) + [r.name]
      ensures Find(r.name) == Some(r)
      ensures forall k :: k != r.name ==> Find(k) == old(Find(k))
    {
      if r.name !in data {
        order := order + [r.name];
      }
      data := data[r.name := r];
    }

    /** `delete`: removes the record under `name` if there is one; otherwise
        does nothing. */
    method Delete(name: string)
      requires Valid()
      modifies this
      ensures Valid()
      ensures data == old(data) - {name}
      ensures order == RemoveKey(old(order), name)
      ensures Find(name) == None
      ensures forall k :: k != name ==> Find(k) == old(Find(k))
      ensures name !in old(data) ==> data == old(data) && order == old(order)
      ensures name in old(data) ==>
                order == old(order)[..IndexOf(old(order), name)] + old(order)[IndexOf(old(order), name) + 1..]
      ensures old(PhonesValid()) ==> PhonesValid()
    {
      if name in data {
        RemoveKeyKeepsOrder(order, name);
        data := data - {name};
        order := RemoveKey(order, name);
      }
    }

    /** The renderings of the records under `keys`, in that order. */
    function Lines(keys: seq<string>): (lines: seq<string>)
      reads this, data.Values
      requires forall k :: k in keys ==> k in data
      ensures |lines| == |keys|
      ensures forall i :: 0 <= i < |keys| ==> lines[i] == data[keys[i]].Render()
    {
      if keys == [] then []
      else
        assert data[keys[0]] in data.Values;
        [data[keys[0]].Render()] + Lines(keys[1..])
    }

    /** `AddressBook.__str__`: one rendered record per line, in dictionary
        order. */
    function Render(): (r: string)
      reads this, data.Values
      requires Valid()
      ensures order == [] ==> r == ""
      ensures |order| == 1 ==> r == data[order[0]].Render()
      ensures |order| >= 1 ==> StartsWith(r, data[order[0]].Render())
    {
      Join(Lines(order), "\n")
    }
  }

  /** The listing reads back line by line: when no name and no phone value
      holds a line break, splitting the listing on line breaks gives the
      rendering of each record in dictionary order. */
  lemma RenderReadsBack(book: AddressBook)
    requires book.Valid() && |book.order| >= 1
    requires forall k :: k in book.data ==> '\n' !in k
    requires forall k, i :: k in book.data && 0 <= i < |book.data[k].phones| ==>
               '\n' !in book.data[k].phones[i].value
    ensures SplitOn(book.Render(), '\n') == book.Lines(book.order)
  {
    var lines := book.Lines(book.order);
    forall i | 0 <= i < |lines|
      ensures '\n' !in lines[i]
    {
      var r := book.data[book.order[i]];
      RenderRecordAvoids(r.name, r.phones, '\n');
    }
    SplitOnJoinChar(lines, '\n');
  }
}
