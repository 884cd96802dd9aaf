/** The custom-resource handler `lambda_handler` (cdk/index.ts:130-149): classify the
    event, resolve the interface addresses for Create and Update, send one response. */
module Handler {
  import opened Wrappers
  import opened Request
  import opened Response
  import opened Ec2
  import opened Resolution

  /** `str(KeyError(key))` for a key without quotes or backslashes, such as the two
      keys the handler reads: the key in single quotes. */
  function KeyErrorMessage(key: string): string
  {
    "'" + key + "'"
  }

  /** The ids to resolve, or the exception the `try` block raises before its loop:
      from `boto3.resource('ec2')`, or a `KeyError` from reading
      `event['ResourceProperties']['NetworkInterfaceIds']`. */
  function InterfaceIds(event: Event, resourceFailure: Option<string>): (r: Result<seq<string>, string>)
  {
    if resourceFailure.Some? then Failure(resourceFailure.value)
    else if event.resourceProperties.None? then Failure(KeyErrorMessage("ResourceProperties"))
    else if event.resourceProperties.value.networkInterfaceIds.None? then Failure(KeyErrorMessage("NetworkInterfaceIds"))
    else Success(event.resourceProperties.value.networkInterfaceIds.value)
  }

  /** The outcome of the `try` block for Create and Update: the addresses, or `str(e)`. */
  function ResolveEvent(event: Event, resourceFailure: Option<string>, addresses: string -> Result<string, string>): (r: Result<seq<string>, string>)
  {
    match InterfaceIds(event, resourceFailure)
    case Failure(e) => Failure(e)
    case Success(ids) => Resolve(ids, addresses)
  }

  /** The envelope the handler sends for `event`. */
  function Handle(event: Event, resourceFailure: Option<string>, addresses: string -> Result<string, string>): (e: Envelope)
    ensures e.status == SUCCESS ==> !e.data.Error?
    ensures e.data.IPs? ==> e.status == SUCCESS
  {
    match event.requestType
    case None => Envelope(FAILED, Error(RequestTypeMissing))
    case Some(t) =>
      match Parse(t)
      case Delete => Envelope(SUCCESS, Empty)
      case Other(_) => Envelope(FAILED, Empty)
      case _ =>
        match ResolveEvent(event, resourceFailure, addresses)
        case Success(ips) => Envelope(SUCCESS, IPs(ips))
        case Failure(msg) => Envelope(FAILED, Error(msg))
  }

  /** The ids whose attributes the handler fetches for `event`, in order. */
  function Lookups(event: Event, resourceFailure: Option<string>, addresses: string -> Result<string, string>): (q: seq<string>)
    ensures q != [] ==> event.requestType.Some? && Parse(event.requestType.value) in {Create, Update}
    ensures q != [] ==> InterfaceIds(event, resourceFailure).Success? && q <= InterfaceIds(event, resourceFailure).value
  {
    match event.requestType
    case None => []
    case Some(t) =>
      if (Parse(t).Create? || Parse(t).Update?) && InterfaceIds(event, resourceFailure).Success? then
        LookedUp(InterfaceIds(event, resourceFailure).value, addresses)
      else []
  }

  /** The `for` loop of the handler: fetch each interface's private address in input
      order, appending it to the `IPs` list, until a lookup raises. `raised` is `str(e)`
      of that exception. */
  method CollectAddresses(ids: seq<string>, ec2: Ec2Service) returns (ips: seq<string>, raised: Option<string>)
    modifies ec2
    ensures raised.None? ==> Resolve(ids, ec2.addresses) == Success(ips)
    ensures raised.Some? ==> Resolve(ids, ec2.addresses) == Failure(raised.value)
    ensures ec2.queried == old(ec2.queried) + LookedUp(ids, ec2.addresses)
  {
    ghost var addresses := ec2.addresses;
    ips, raised := [], None;
    var i := 0;
    while i < |ids| && raised.None?
      invariant 0 <= i <= |ids|
      invariant ec2.queried == old(ec2.queried) + ids[..i]
      invariant LookedUp(ids[..i], addresses) == ids[..i]
      invariant raised.None? ==> Resolve(ids[..i], addresses) == Success(ips)
      invariant raised.Some? ==> Resolve(ids[..i], addresses) == Failure(raised.value)
    {
      var r := ec2.PrivateIpAddress(ids[i]);
      ExtendByOne(ids[..i], ids[i], addresses);
      assert ids[..i + 1] == ids[..i] + [ids[i]];
      match r {
        case Failure(e) =>
          raised := Some(e);
        case Success(ip) =>
          ips := ips + [ip];
      }
      i := i + 1;
    }
    if raised.None? {
      assert ids[..i] == ids;
    } else {
      // the ids after the failing one are neither looked up nor change the outcome
      StopAtFailure(ids[..i], ids[i..], addresses);
      assert ids == ids[..i] + ids[i..];
    }
  }

  /** `lambda_handler(event, context)`. Exactly one response is sent, carrying the
      envelope `Handle` decides, and only the ids `Lookups` names are queried. */
  method LambdaHandler(event: Event, ec2: Ec2Service, cfn: CfnResponse)
    modifies ec2, cfn
    ensures cfn.sent == old(cfn.sent) +
      [Delivery(event, Handle(event, ec2.resourceFailure, ec2.addresses).status,
                Encode(Handle(event, ec2.resourceFailure, ec2.addresses).data))]
    ensures ec2.queried == old(ec2.queried) + Lookups(event, ec2.resourceFailure, ec2.addresses)
  {
    ghost var decided := Handle(event, ec2.resourceFailure, ec2.addresses);
    ghost var toQuery := Lookups(event, ec2.resourceFailure, ec2.addresses);
    var responseStatus := FAILED;
    var responseData: Dict := map[];
    if event.requestType.None? {
      responseData := map[ErrorKey := Text(RequestTypeMissing)];
    } else if event.requestType.value == "Delete" {
      responseStatus := SUCCESS;
    } else if event.requestType.value in ["Create", "Update"] {
      // the `try` block: `raised` is `str(e)` of the exception that left it, if any
      responseData := responseData[IpsKey := TextList([])];
      var raised := ec2.Resource();
      if raised.None? {
        if event.resourceProperties.None? {
          raised := Some(KeyErrorMessage("ResourceProperties"));
        } else if event.resourceProperties.value.networkInterfaceIds.None? {
          raised := Some(KeyErrorMessage("NetworkInterfaceIds"));
        } else {
          var ips;
          ips, raised := CollectAddresses(event.resourceProperties.value.networkInterfaceIds.value, ec2);
          // the list the loop appended to is the one stored under 'IPs'
          responseData := responseData[IpsKey := TextList(ips)];
        }
      }
      if raised.None? {
        responseStatus := SUCCESS;
      } else {
        responseData := map[ErrorKey := Text(raised.value)];
      }
    }
    assert responseStatus == decided.status && responseData == Encode(decided.data);
    assert ec2.queried == old(ec2.queried) + toQuery;
    cfn.Send(event, responseStatus, responseData);
  }
}
