// The set of devices an inquiry found (src/hci/btinquiryresults.cpp): one
// record per response, in the order the Inquiry Result events reported
// them, later given the name a Remote Name Request returned.
module InquiryResults {
  import opened Bytes
  import DeviceClass
  import HciEvent

  /** `"Unknown"` with its terminating NUL, as `strcpy` writes it. */
  const UNKNOWN_NAME: Bytes := [0x55, 0x6E, 0x6B, 0x6E, 0x6F, 0x77, 0x6E, 0x00]

  datatype Response = Response(addr: Bytes, cod: DeviceClass.ClassOfDevice,
                               pageScanRepetitionMode: byte, name: Bytes)

  predicate ValidResponse(r: Response)
  {
    |r.addr| == BD_ADDR_SIZE && DeviceClass.Valid(r.cod) && |r.name| <= NAME_SIZE
  }

  /** The record built for one response of an Inquiry Result event. */
  function FromEvent(x: HciEvent.InquiryResponse): (r: Response)
    requires HciEvent.ValidResponse(x)
    ensures ValidResponse(r)
    ensures r.addr == x.addr && DeviceClass.Pack(r.cod) == x.cod
    ensures r.pageScanRepetitionMode == x.pageScanRepetitionMode && r.name == UNKNOWN_NAME
  {
    DeviceClass.PackUnpack(x.cod);
    Response(x.addr, DeviceClass.Unpack(x.cod), x.pageScanRepetitionMode, UNKNOWN_NAME)
  }

  /** The records an event with `n` responses in `data` contributes, in order. */
  function Decoded(data: Bytes, n: nat): (rs: seq<Response>)
    requires HciEvent.INQUIRY_RESP_SIZE * n <= |data|
    ensures |rs| == n
    ensures forall i :: 0 <= i < n ==> rs[i] == FromEvent(HciEvent.ResponseAt(data, n, i))
  {
    seq(n, i requires 0 <= i < n => FromEvent(HciEvent.ResponseAt(data, n, i)))
  }

  /** Index of the first record with the given address, or |rs|. */
  function FirstWithAddr(rs: seq<Response>, addr: Bytes): (k: nat)
    ensures k <= |rs|
    ensures k < |rs| ==> rs[k].addr == addr
    ensures forall j :: 0 <= j < k ==> rs[j].addr != addr
  {
    if |rs| == 0 || rs[0].addr == addr then 0 else 1 + FirstWithAddr(rs[1..], addr)
  }

  /** The records after a name arrives for `addr`: only the first match takes it. */
  function Renamed(rs: seq<Response>, addr: Bytes, name: Bytes): (r: seq<Response>)
    ensures |r| == |rs|
  {
    var k := FirstWithAddr(rs, addr);
    if k < |rs| then rs[k := rs[k].(name := name)] else rs
  }

  predicate SameClass(r: Response, cod: DeviceClass.ClassOfDevice)
  {
    r.cod.minor == cod.minor && r.cod.major == cod.major
  }

  /** Some record has both the minor and the major class of `cod`. */
  function AnyOfClass(rs: seq<Response>, cod: DeviceClass.ClassOfDevice): (r: bool)
    ensures r <==> exists i :: 0 <= i < |rs| && SameClass(rs[i], cod)
  {
    if |rs| == 0 then false
    else if SameClass(rs[0], cod) then true
    else
      var r := AnyOfClass(rs[1..], cod);
      assert forall i :: 1 <= i < |rs| ==> rs[i] == rs[1..][i - 1];
      r
  }

  class Results {
    var responses: seq<Response>

    ghost predicate Valid()
      reads this
    {
      forall i :: 0 <= i < |responses| ==> ValidResponse(responses[i])
    }

    constructor ()
      ensures Valid() && responses == []
    {
      responses := [];
    }

    /** Appends one record per response, in event order; earlier records stay as they were. */
    method AddInquiryResult(numResponses: nat, data: Bytes)
      modifies this
      requires Valid()
      requires HciEvent.INQUIRY_RESP_SIZE * numResponses <= |data|
      ensures Valid()
      ensures responses == old(responses) + Decoded(data, numResponses)
    {
      var i := 0;
      while i < numResponses
        invariant 0 <= i <= numResponses && Valid()
        invariant responses == old(responses) + Decoded(data, numResponses)[..i]
      {
        responses := responses + [FromEvent(HciEvent.ResponseAt(data, numResponses, i))];
        assert Decoded(data, numResponses)[..i + 1]
          == Decoded(data, numResponses)[..i] + [Decoded(data, numResponses)[i]];
        i := i + 1;
      }
      assert Decoded(data, numResponses)[..numResponses] == Decoded(data, numResponses);
    }

    /**
     * Copies the 248-byte name into the first record with the event's
     * address and answers TRUE; with no such record answers FALSE and
     * changes nothing.
     */
    method SetRemoteName(addr: Bytes, name: Bytes) returns (found: bool)
      modifies this
      requires Valid() && |addr| == BD_ADDR_SIZE && |name| == NAME_SIZE
      ensures Valid()
      ensures found <==> exists i :: 0 <= i < |old(responses)| && old(responses)[i].addr == addr
      ensures responses == Renamed(old(responses), addr, name)
    {
      var i := 0;
      while i < |responses|
        invariant 0 <= i <= |responses|
        invariant forall j :: 0 <= j < i ==> responses[j].addr != addr
      {
        if responses[i].addr == addr {
          responses := responses[i := responses[i].(name := name)];
          return true;
        }
        i := i + 1;
      }
      return false;
    }

    function GetCount(): (n: nat)
      reads this
      ensures n == |responses|
    {
      |responses|
    }

    function GetBDAddress(i: nat): Bytes
      reads this
      requires i < |responses|
    {
      responses[i].addr
    }

    function GetClassOfDevice(i: nat): DeviceClass.ClassOfDevice
      reads this
      requires i < |responses|
    {
      responses[i].cod
    }

    function GetRemoteName(i: nat): Bytes
      reads this
      requires i < |responses|
    {
      responses[i].name
    }

    function GetPageScanRepetitionMode(i: nat): byte
      reads this
      requires i < |responses|
    {
      responses[i].pageScanRepetitionMode
    }

    /** Some record matches both the minor and the major class; the service class is not compared. */
    method HasDevice(cod: DeviceClass.ClassOfDevice) returns (r: bool)
      ensures r == AnyOfClass(responses, cod)
      ensures r <==> exists i :: 0 <= i < |responses| && SameClass(responses[i], cod)
    {
      var i := 0;
      while i < |responses|
        invariant 0 <= i <= |responses|
        invariant forall j :: 0 <= j < i ==> !SameClass(responses[j], cod)
      {
        if SameClass(responses[i], cod) {
          return true;
        }
        i := i + 1;
      }
      return false;
    }
  }

  /**
   * Reading a column-wise Inquiry Result block back yields one record per
   * response the controller packed into it, in the same order.
   */
  lemma DecodedInquiryBlock(xs: seq<HciEvent.InquiryResponse>)
    requires forall j :: 0 <= j < |xs| ==> HciEvent.ValidResponse(xs[j])
    ensures |HciEvent.InquiryBlock(xs)| == HciEvent.INQUIRY_RESP_SIZE * |xs|
    ensures var rs := Decoded(HciEvent.InquiryBlock(xs), |xs|);
      forall i :: 0 <= i < |xs| ==>
        rs[i].addr == xs[i].addr && DeviceClass.Pack(rs[i].cod) == xs[i].cod
        && rs[i].pageScanRepetitionMode == xs[i].pageScanRepetitionMode
  {
    if |xs| > 0 {
      HciEvent.ResponseAtInquiryBlock(xs, 0);
    }
    forall i | 0 <= i < |xs|
      ensures HciEvent.ResponseAt(HciEvent.InquiryBlock(xs), |xs|, i) == xs[i]
    {
      HciEvent.ResponseAtInquiryBlock(xs, i);
    }
  }

  /** Service bits never decide HasDevice. */
  lemma HasDeviceIgnoresService(rs: seq<Response>, cod: DeviceClass.ClassOfDevice, service: nat)
    ensures AnyOfClass(rs, cod) == AnyOfClass(rs, cod.(service := service))
  {
  }

  /** A name for an address no record holds changes nothing; otherwise exactly one record is renamed. */
  lemma RenamedOnlyFirst(rs: seq<Response>, addr: Bytes, name: Bytes, j: nat)
    requires j < |rs|
    ensures j != FirstWithAddr(rs, addr) ==> Renamed(rs, addr, name)[j] == rs[j]
    ensures j == FirstWithAddr(rs, addr) ==> Renamed(rs, addr, name)[j] == rs[j].(name := name)
  {
  }
}
