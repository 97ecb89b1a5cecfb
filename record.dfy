/** A contact (`Record` in main.py): a name and an ordered list of phones that
    the record's methods change in place. */
module Records {
  import opened Errors
  import opened Text
  import opened Phones

  /** The values of a list of phones, in order. */
  function Values(ps: seq<Phone>): (vs: seq<string>)
    ensures |vs| == |ps|
    ensures forall i :: 0 <= i < |ps| ==> vs[i] == ps[i].value
  {
    if ps == [] then [] else [ps[0].value] + Values(ps[1..])
  }

  predicate AllValid(ps: seq<Phone>)
  {
    forall i :: 0 <= i < |ps| ==> IsValidPhone(ps[i].value)
  }

  /** The position of the first phone whose value is `raw`, the one the
      record's loops stop at. */
  function FirstMatch(ps: seq<Phone>, raw: string): (r: Option<nat>)
    ensures r.Some? ==> r.value < |ps| && ps[r.value].value == raw
    ensures r.Some? ==> forall j :: 0 <= j < r.value ==> ps[j].value != raw
    ensures r.None? <==> forall j :: 0 <= j < |ps| ==> ps[j].value != raw
  {
    if ps == [] then None
    else if ps[0].value == raw then Some(0)
    else match FirstMatch(ps[1..], raw)
      case None => None
      case Some(i) => Some(i + 1)
  }

  /** The phone list after `remove_phone(raw)`. */
  function RemoveFirst(ps: seq<Phone>, raw: string): (r: seq<Phone>)
    ensures FirstMatch(ps, raw).None? ==> r == ps
    ensures FirstMatch(ps, raw).Some? ==>
      var i := FirstMatch(ps, raw).value;
      && |r| == |ps| - 1
      && (forall j :: 0 <= j < i ==> r[j] == ps[j])
      && (forall j :: i <= j < |r| ==> r[j] == ps[j + 1])
      && multiset(r) + multiset{Phone(raw)} == multiset(ps)
  {
    match FirstMatch(ps, raw)
    case None => ps
    case Some(i) =>
      assert ps == ps[..i] + [ps[i]] + ps[i + 1..];
      ps[..i] + ps[i + 1..]
  }

  /** The phone list after `edit_phone(oldRaw, newRaw)`, whether or not the new
      value then passes validation. */
  function ReplaceFirst(ps: seq<Phone>, oldRaw: string, newRaw: string): (r: seq<Phone>)
    ensures |r| == |ps|
    ensures FirstMatch(ps, oldRaw).None? ==> r == ps
    ensures FirstMatch(ps, oldRaw).Some? ==>
      var i := FirstMatch(ps, oldRaw).value;
      r[i] == Phone(newRaw) && forall j :: 0 <= j < |ps| && j != i ==> r[j] == ps[j]
  {
    match FirstMatch(ps, oldRaw)
    case None => ps
    case Some(i) => ps[i := Phone(newRaw)]
  }

  /** `Record.__str__`: the name header, then the phone values separated by
      `", "`. A contact without phones shows the bare header, and one with a
      single phone shows no separator. */
  function RenderRecord(name: string, ps: seq<Phone>): (r: string)
    ensures StartsWith(r, RecordHeader + name + PhonesHeader)
    ensures ps == [] ==> r == RecordHeader + name + PhonesHeader
    ensures |ps| == 1 ==> r == RecordHeader + name + PhonesHeader + ps[0].value
  {
    var head := RecordHeader + name + PhonesHeader;
    assert (head + Join(Values(ps), ", "))[..|head|] == head;
    head + Join(Values(ps), ", ")
  }

  const RecordHeader: string := "Name: "
  const PhonesHeader: string := ", phones: "

  // ---------------------------------------------------------------------------
  // What the phone-list operations keep

  /** Removing a phone keeps a list of valid phones valid. */
  lemma RemoveFirstKeepsValid(ps: seq<Phone>, raw: string)
    requires AllValid(ps)
    ensures AllValid(RemoveFirst(ps, raw))
  {
    var r := RemoveFirst(ps, raw);
    forall j | 0 <= j < |r|
      ensures IsValidPhone(r[j].value)
    {
      if FirstMatch(ps, raw).Some? && FirstMatch(ps, raw).value <= j {
        assert r[j] == ps[j + 1];
      }
    }
  }

  /** An edit to a valid value keeps a list of valid phones valid. */
  lemma ReplaceFirstKeepsValid(ps: seq<Phone>, oldRaw: string, newRaw: string)
    requires AllValid(ps) && IsValidPhone(newRaw)
    ensures AllValid(ReplaceFirst(ps, oldRaw, newRaw))
  {
  }

  /** The edit is applied before the new value is checked: when the old value
      is present and the new one is malformed, the list afterwards holds a
      phone that is not valid. */
  lemma ReplaceFirstFailsDirty(ps: seq<Phone>, oldRaw: string, newRaw: string)
    requires FirstMatch(ps, oldRaw).Some? && !IsValidPhone(newRaw)
    ensures !AllValid(ReplaceFirst(ps, oldRaw, newRaw))
    ensures Phone(newRaw) in ReplaceFirst(ps, oldRaw, newRaw)
  {
    var i := FirstMatch(ps, oldRaw).value;
    assert ReplaceFirst(ps, oldRaw, newRaw)[i] == Phone(newRaw);
  }

  lemma ValidHasNoComma(v: string)
    requires IsValidPhone(v)
    ensures ',' !in v
  {
    forall i | 0 <= i < |v|
      ensures v[i] != ','
    {
      assert IsDigit(v[i]);
    }
  }

  lemma {:induction false} SplitPhoneList(vs: seq<string>)
    requires |vs| >= 1
    requires forall k :: 0 <= k < |vs| ==> ',' !in vs[k]
    ensures SplitOn(Join(vs, ", "), ',') == [vs[0]] + Prefixed(" ", vs[1..])
  {
    var sep: string := ", ";
    assert sep == [','] + " ";
    SplitOnJoin(vs, ',', " ");
  }

  /** A record's rendering starts with its name, and the text after the
      `phones:` header splits on commas back into its phone values (every one
      after the first preceded by the blank of the `", "` separator) whenever
      those values are valid, since digits contain no comma. */
  lemma RenderRecordReadsBack(name: string, ps: seq<Phone>)
    requires |ps| >= 1 && AllValid(ps)
    ensures StartsWith(RenderRecord(name, ps), RecordHeader + name + PhonesHeader)
    ensures var body := RenderRecord(name, ps)[|RecordHeader + name + PhonesHeader|..];
            SplitOn(body, ',') == [ps[0].value] + Prefixed(" ", Values(ps)[1..])
  {
    var vs := Values(ps);
    var head := RecordHeader + name + PhonesHeader;
    var body := Join(vs, ", ");
    assert RenderRecord(name, ps) == head + body;
    assert (head + body)[..|head|] == head;
    assert (head + body)[|head|..] == body;
    forall k | 0 <= k < |vs|
      ensures ',' !in vs[k]
    {
      ValidHasNoComma(ps[k].value);
    }
    SplitPhoneList(vs);
  }

  /** A character that is neither in the name, nor in any phone value, nor in
      the fixed text of a rendering does not occur in the rendering. */
  lemma RenderRecordAvoids(name: string, ps: seq<Phone>, c: char)
    requires c !in name
    requires forall i :: 0 <= i < |ps| ==> c !in ps[i].value
    requires c !in RecordHeader && c !in PhonesHeader && c !in ", "
    ensures c !in RenderRecord(name, ps)
  {
    JoinAvoids(Values(ps), ", ", c);
  }

  class Record {
    const name: string
    var phones: seq<Phone>

    /** `Record(name)`: a contact with no phones. */
    constructor (name: string)
      ensures this.name == name && phones == []
    {
      this.name := name;
      phones := [];
    }

    /** `add_phone`: builds the phone (which may raise `ValueError`) and appends
        it. */
    method AddPhone(raw: string) returns (r: Result<()>)
      modifies this
      ensures r.Ok? <==> IsValidPhone(raw)
      ensures r.Err? ==> r.error == ValueError
      ensures phones == if r.Ok? then old(phones) + [Phone(raw)] else old(phones)
    {
      var p := NewPhone(raw);
      match p
      case Ok(phone) =>
        phones := phones + [phone];
        r := Ok(());
      case Err(e) =>
        r := Err(e);
    }

    /** `remove_phone`: deletes the first phone with value `raw`, or raises
        `ValueError` when there is none. */
    method RemovePhone(raw: string) returns (r: Result<()>)
      modifies this
      ensures r.Ok? <==> FirstMatch(old(phones), raw).Some?
      ensures r.Err? ==> r.error == ValueError
      ensures phones == RemoveFirst(old(phones), raw)
    {
      var i := 0;
      while i < |phones|
        invariant 0 <= i <= |phones|
        invariant forall j :: 0 <= j < i ==> phones[j].value != raw
      {
        if phones[i].value == raw {
          phones := phones[..i] + phones[i + 1..];
          return Ok(());
        }
        i := i + 1;
      }
      return Err(ValueError);
    }

    /** `edit_phone`: overwrites the value of the first phone equal to `oldRaw`
        and only then validates it, so a malformed `newRaw` is stored before
        `ValueError` is raised; with no such phone it raises `ValueError` and
        changes nothing. */
    method EditPhone(oldRaw: string, newRaw: string) returns (r: Result<()>)
      modifies this
      ensures phones == ReplaceFirst(old(phones), oldRaw, newRaw)
      ensures FirstMatch(old(phones), oldRaw).None? ==> r == Err(ValueError)
      ensures FirstMatch(old(phones), oldRaw).Some? ==> r == ValidatePhone(newRaw)
    {
      var found := false;
      var i := 0;
      while i < |phones|
        invariant 0 <= i <= |phones|
        invariant phones == old(phones)
        invariant forall j :: 0 <= j < i ==> phones[j].value != oldRaw
      {
        if phones[i].value == oldRaw {
          phones := phones[i := Phone(newRaw)];
          var checked := ValidatePhone(phones[i].value);
          if checked.Err? {
            return checked;
          }
          found := true;
          break;
        }
        i := i + 1;
      }
      if !found {
        return Err(ValueError);
      }
      r := Ok(());
    }

    /** `find_phone`: the first phone whose value is `raw`, or `None`. */
    method FindPhone(raw: string) returns (p: Option<Phone>)
      ensures p.Some? <==> exists j :: 0 <= j < |phones| && phones[j].value == raw
      ensures p.Some? ==> p.value == phones[FirstMatch(phones, raw).value]
      ensures p.Some? ==> p.value.value == raw
    {
      var i := 0;
      while i < |phones|
        invariant 0 <= i <= |phones|
        invariant forall j :: 0 <= j < i ==> phones[j].value != raw
      {
        if phones[i].value == raw {
          return Some(phones[i]);
        }
        i := i + 1;
      }
      return None;
    }

    /** `Record.__str__`: this record's name header followed by its phones. */
    function Render(): (r: string)
      reads this
      ensures StartsWith(r, RecordHeader + name + PhonesHeader)
      ensures phones == [] ==> r == RecordHeader + name + PhonesHeader
    {
      RenderRecord(name, phones)
    }
  }
}
