// The system-wide registry that maps a device name and kind (block or
// character) to the device object (src/common/devicenameservice.cpp). The
// singly linked list is represented by the sequence of its records from the
// head; device pointers are positive numbers, 0 meaning "none".
module NameService {

  datatype Info = Info(name: string, device: nat, blockDevice: bool)

  predicate Matches(r: Info, name: string, blockDevice: bool)
  {
    r.name == name && r.blockDevice == blockDevice
  }

  /** Index of the first record matching both name and kind, or |records|. */
  function FirstMatch(records: seq<Info>, name: string, blockDevice: bool): (k: nat)
    ensures k <= |records|
    ensures k < |records| ==> Matches(records[k], name, blockDevice)
    ensures forall j :: 0 <= j < k ==> !Matches(records[j], name, blockDevice)
  {
    if |records| == 0 then 0
    else if Matches(records[0], name, blockDevice) then 0
    else 1 + FirstMatch(records[1..], name, blockDevice)
  }

  /** The device registered under `name` and kind, as the first match finds it; 0 if none. */
  function Lookup(records: seq<Info>, name: string, blockDevice: bool): nat
  {
    var k := FirstMatch(records, name, blockDevice);
    if k < |records| then records[k].device else 0
  }

  /** Decimal digits of `n`, most significant first, as `%u` prints them. */
  function Decimal(n: nat): (s: string)
    ensures 0 < |s| && forall i :: 0 <= i < |s| ==> '0' <= s[i] <= '9'
    ensures n < 10 <==> |s| == 1
  {
    if n < 10 then [Digit(n)] else Decimal(n / 10) + [Digit(n % 10)]
  }

  function Digit(d: nat): (c: char)
    requires d < 10
    ensures '0' <= c <= '9' && c as int - '0' as int == d
  {
    ('0' as int + d) as char
  }

  /** The number a string of decimal digits denotes. */
  function ParseDecimal(s: string): nat
    requires forall i :: 0 <= i < |s| ==> '0' <= s[i] <= '9'
  {
    if |s| == 0 then 0
    else 10 * ParseDecimal(s[..|s| - 1]) + (s[|s| - 1] as int - '0' as int)
  }

  /** Reading the digits back gives the number, so `%u` is injective. */
  lemma {:induction false} ParseDecimalOf(n: nat)
    ensures ParseDecimal(Decimal(n)) == n
  {
    var s := Decimal(n);
    if n >= 10 {
      ParseDecimalOf(n / 10);
      assert s[..|s| - 1] == Decimal(n / 10);
    }
  }

  /** `sprintf("%s%u", prefix, index)`. */
  function IndexedName(prefix: string, index: nat): (s: string)
    ensures |prefix| < |s| && s[..|prefix|] == prefix
  {
    prefix + Decimal(index)
  }

  /** Under one prefix, distinct indices name distinct devices. */
  lemma IndexedNamesDistinct(prefix: string, a: nat, b: nat)
    requires a != b
    ensures IndexedName(prefix, a) != IndexedName(prefix, b)
  {
    if IndexedName(prefix, a) == IndexedName(prefix, b) {
      assert Decimal(a) == IndexedName(prefix, a)[|prefix|..];
      assert Decimal(b) == IndexedName(prefix, b)[|prefix|..];
      ParseDecimalOf(a);
      ParseDecimalOf(b);
    }
  }

  /** The 40-character buffer the prefix forms print into. */
  const NAME_BUFFER_SIZE := 40

  class Registry {
    var records: seq<Info>

    ghost predicate Valid()
      reads this
    {
      forall i :: 0 <= i < |records| ==> records[i].device > 0
    }

    constructor ()
      ensures Valid() && records == []
    {
      records := [];
    }

    /** Puts a new record at the head of the list. */
    method AddDevice(name: string, device: nat, blockDevice: bool)
      modifies this
      requires Valid() && device > 0
      ensures Valid()
      ensures records == [Info(name, device, blockDevice)] + old(records)
    {
      records := [Info(name, device, blockDevice)] + records;
    }

    method AddIndexedDevice(prefix: string, index: nat, device: nat, blockDevice: bool)
      modifies this
      requires Valid() && device > 0
      requires |IndexedName(prefix, index)| < NAME_BUFFER_SIZE
      ensures Valid()
      ensures records == [Info(IndexedName(prefix, index), device, blockDevice)] + old(records)
    {
      AddDevice(IndexedName(prefix, index), device, blockDevice);
    }

    /** Unlinks the first record matching name and kind; without one nothing changes. */
    method RemoveDevice(name: string, blockDevice: bool)
      modifies this
      requires Valid()
      ensures Valid()
      ensures var k := FirstMatch(old(records), name, blockDevice);
        records == old(records)[..k] + (if k < |old(records)| then old(records)[k + 1..] else [])
    {
      var i := 0;
      while i < |records| && !Matches(records[i], name, blockDevice)
        invariant 0 <= i <= |records|
        invariant forall j :: 0 <= j < i ==> !Matches(records[j], name, blockDevice)
      {
        i := i + 1;
      }
      if i == |records| {
        return;
      }
      records := records[..i] + records[i + 1..];
    }

    method RemoveIndexedDevice(prefix: string, index: nat, blockDevice: bool)
      modifies this
      requires Valid()
      requires |IndexedName(prefix, index)| < NAME_BUFFER_SIZE
      ensures Valid()
      ensures var k := FirstMatch(old(records), IndexedName(prefix, index), blockDevice);
        records == old(records)[..k] + (if k < |old(records)| then old(records)[k + 1..] else [])
    {
      RemoveDevice(IndexedName(prefix, index), blockDevice);
    }

    /** Walks the list and returns the device of the first match, or 0. */
    method GetDevice(name: string, blockDevice: bool) returns (device: nat)
      requires Valid()
      ensures device == Lookup(records, name, blockDevice)
      ensures device == 0 <==> forall i :: 0 <= i < |records| ==> !Matches(records[i], name, blockDevice)
    {
      var i := 0;
      while i < |records|
        invariant 0 <= i <= |records|
        invariant forall j :: 0 <= j < i ==> !Matches(records[j], name, blockDevice)
      {
        if Matches(records[i], name, blockDevice) {
          return records[i].device;
        }
        i := i + 1;
      }
      return 0;
    }

    method GetIndexedDevice(prefix: string, index: nat, blockDevice: bool) returns (device: nat)
      requires Valid()
      requires |IndexedName(prefix, index)| < NAME_BUFFER_SIZE
      ensures device == Lookup(records, IndexedName(prefix, index), blockDevice)
    {
      device := GetDevice(IndexedName(prefix, index), blockDevice);
    }
  }

  /** The most recent registration of a name and kind is the one found. */
  lemma LookupAfterAdd(records: seq<Info>, name: string, device: nat, blockDevice: bool,
                       other: string, otherBlock: bool)
    ensures Lookup([Info(name, device, blockDevice)] + records, name, blockDevice) == device
    ensures !(other == name && otherBlock == blockDevice) ==>
      Lookup([Info(name, device, blockDevice)] + records, other, otherBlock) == Lookup(records, other, otherBlock)
  {
    var r := [Info(name, device, blockDevice)] + records;
    assert r[1..] == records;
  }

  /**
   * Adding a record and then removing by the same name and kind restores
   * the registry: the remove takes out the record just added.
   */
  lemma RemoveUndoesAdd(records: seq<Info>, name: string, device: nat, blockDevice: bool)
    ensures var r := [Info(name, device, blockDevice)] + records;
      var k := FirstMatch(r, name, blockDevice);
      r[..k] + (if k < |r| then r[k + 1..] else []) == records
  {
  }
}
