/** What the handler promises, stated over its specification `Handle` and `Lookups`
    (cdk/index.ts:132-149). */
module HandlerProperties {
  import opened Wrappers
  import opened Request
  import opened Response
  import opened Ec2
  import opened Resolution
  import opened Handler

  predicate RequestTypeIs(event: Event, name: string)
  {
    event.requestType == Some(name)
  }

  predicate IsCreateOrUpdate(event: Event)
  {
    RequestTypeIs(event, "Create") || RequestTypeIs(event, "Update")
  }

  /** An event without `RequestType` fails with the fixed message, and nothing is looked up. */
  lemma MissingRequestTypeFails(event: Event, resourceFailure: Option<string>, addresses: string -> Result<string, string>)
    requires event.requestType.None?
    ensures Handle(event, resourceFailure, addresses) == Envelope(FAILED, Error(RequestTypeMissing))
    ensures Encode(Handle(event, resourceFailure, addresses).data) == map[ErrorKey := Text("RequestType not in event")]
    ensures Lookups(event, resourceFailure, addresses) == []
  {
  }

  /** `Delete` succeeds with `{}` whatever the resource properties and the platform hold,
      and nothing is looked up. */
  lemma DeleteSucceeds(event: Event, resourceFailure: Option<string>, addresses: string -> Result<string, string>)
    requires RequestTypeIs(event, "Delete")
    ensures Handle(event, resourceFailure, addresses) == Envelope(SUCCESS, Empty)
    ensures Encode(Handle(event, resourceFailure, addresses).data) == map[]
    ensures Lookups(event, resourceFailure, addresses) == []
  {
  }

  /** A request type other than Create, Update and Delete falls through every branch:
      FAILED with `{}`, and nothing is looked up. */
  lemma UnrecognizedRequestTypeFails(event: Event, resourceFailure: Option<string>, addresses: string -> Result<string, string>)
    requires event.requestType.Some?
    requires !RequestTypeIs(event, "Delete") && !IsCreateOrUpdate(event)
    ensures Handle(event, resourceFailure, addresses) == Envelope(FAILED, Empty)
    ensures Lookups(event, resourceFailure, addresses) == []
  {
  }

  /** Create and Update with every lookup succeeding: SUCCESS, and `IPs` lists the
      address of each id, in input order; every id is looked up once, in order. */
  lemma ResolvedInOrder(event: Event, addresses: string -> Result<string, string>, ids: seq<string>)
    requires IsCreateOrUpdate(event)
    requires event.resourceProperties == Some(ResourceProperties(Some(ids)))
    requires forall i :: 0 <= i < |ids| ==> addresses(ids[i]).Success?
    ensures Handle(event, None, addresses).status == SUCCESS
    ensures Handle(event, None, addresses).data.IPs?
    ensures |Handle(event, None, addresses).data.ips| == |ids|
    ensures forall i :: 0 <= i < |ids| ==> Handle(event, None, addresses).data.ips[i] == addresses(ids[i]).value
    ensures Lookups(event, None, addresses) == ids
  {
    ResolveInOrder(ids, addresses);
  }

  /** An empty id list on Create or Update is not rejected: SUCCESS with `{'IPs': []}`. */
  lemma EmptyIdsSucceed(event: Event, addresses: string -> Result<string, string>)
    requires IsCreateOrUpdate(event)
    requires event.resourceProperties == Some(ResourceProperties(Some([])))
    ensures Handle(event, None, addresses) == Envelope(SUCCESS, IPs([]))
    ensures Encode(Handle(event, None, addresses).data) == map[IpsKey := TextList([])]
    ensures Lookups(event, None, addresses) == []
  {
  }

  /** Create and Update with a failing lookup: FAILED with `{'error': msg}` where `msg`
      is the error of the FIRST failing id; no `IPs` key survives, and the ids after
      that one are never looked up. */
  lemma FirstLookupFailureFails(event: Event, addresses: string -> Result<string, string>, ids: seq<string>, k: int)
    requires IsCreateOrUpdate(event)
    requires event.resourceProperties == Some(ResourceProperties(Some(ids)))
    requires FirstFailure(ids, addresses, k)
    ensures Handle(event, None, addresses) == Envelope(FAILED, Error(addresses(ids[k]).error))
    ensures IpsKey !in Encode(Handle(event, None, addresses).data)
    ensures Lookups(event, None, addresses) == ids[..k + 1]
  {
    FirstFailureSplits(ids, addresses, k);
  }

  /** Create and Update that fail before the loop: the EC2 resource could not be
      created, or `ResourceProperties` or `NetworkInterfaceIds` is missing. FAILED
      with `{'error': str(e)}`, and nothing is looked up. */
  lemma MissingInputFails(event: Event, resourceFailure: Option<string>, addresses: string -> Result<string, string>)
    requires IsCreateOrUpdate(event)
    requires resourceFailure.Some? || event.resourceProperties.None? || event.resourceProperties.value.networkInterfaceIds.None?
    ensures Handle(event, resourceFailure, addresses).status == FAILED
    ensures resourceFailure.Some? ==> Handle(event, resourceFailure, addresses).data == Error(resourceFailure.value)
    ensures resourceFailure.None? && event.resourceProperties.None? ==>
      Handle(event, resourceFailure, addresses).data == Error(KeyErrorMessage("ResourceProperties"))
    ensures resourceFailure.None? && event.resourceProperties.Some? ==>
      Handle(event, resourceFailure, addresses).data == Error(KeyErrorMessage("NetworkInterfaceIds"))
    ensures Lookups(event, resourceFailure, addresses) == []
  {
  }

  /** The status starts FAILED and becomes SUCCESS exactly on Delete, or on Create and
      Update once every id has been resolved. */
  lemma SuccessExactlyWhen(event: Event, resourceFailure: Option<string>, addresses: string -> Result<string, string>)
    ensures Handle(event, resourceFailure, addresses).status == SUCCESS <==>
      || RequestTypeIs(event, "Delete")
      || (&& IsCreateOrUpdate(event)
          && resourceFailure.None?
          && event.resourceProperties.Some?
          && event.resourceProperties.value.networkInterfaceIds.Some?
          && var ids := event.resourceProperties.value.networkInterfaceIds.value;
             forall i :: 0 <= i < |ids| ==> addresses(ids[i]).Success?)
  {
    if IsCreateOrUpdate(event) && InterfaceIds(event, resourceFailure).Success? {
      ResolveInOrder(InterfaceIds(event, resourceFailure).value, addresses);
    }
  }

  /** Every envelope is one of the three dictionary shapes, and an error message is
      reported exactly when the status is FAILED and the event was not merely
      unrecognised. */
  lemma EnvelopeShape(event: Event, resourceFailure: Option<string>, addresses: string -> Result<string, string>)
    ensures Decode(Encode(Handle(event, resourceFailure, addresses).data)) == Some(Handle(event, resourceFailure, addresses).data)
    ensures Handle(event, resourceFailure, addresses).data.Error? <==>
      Handle(event, resourceFailure, addresses).status == FAILED && (event.requestType.None? || IsCreateOrUpdate(event))
    ensures Handle(event, resourceFailure, addresses).data.IPs? ==> Handle(event, resourceFailure, addresses).status == SUCCESS
  {
  }

  /** The handler keeps no state: the same event against platforms that answer the
      same for every id it looks up yields the same envelope and the same lookups. */
  lemma SameAnswersSameEnvelope(event: Event, resourceFailure: Option<string>,
                                a1: string -> Result<string, string>, a2: string -> Result<string, string>)
    requires forall id :: id in Lookups(event, resourceFailure, a1) ==> a1(id) == a2(id)
    ensures Handle(event, resourceFailure, a1) == Handle(event, resourceFailure, a2)
    ensures Lookups(event, resourceFailure, a1) == Lookups(event, resourceFailure, a2)
  {
    if IsCreateOrUpdate(event) && InterfaceIds(event, resourceFailure).Success? {
      var ids := InterfaceIds(event, resourceFailure).value;
      assert Lookups(event, resourceFailure, a1) == LookedUp(ids, a1);
      ResolveDependsOnLookedUp(ids, a1, a2);
      assert ResolveEvent(event, resourceFailure, a1) == ResolveEvent(event, resourceFailure, a2);
    }
  }

  /** Two interfaces that both resolve: their addresses, in the order of the ids. */
  lemma TwoInterfacesResolve(event: Event)
    requires RequestTypeIs(event, "Create")
    requires event.resourceProperties == Some(ResourceProperties(Some(["eni-aaa", "eni-bbb"])))
    ensures var addresses := (id: string) =>
      if id == "eni-aaa" then Success("10.10.10.5") else if id == "eni-bbb" then Success("10.10.10.9") else Failure("not found");
      Handle(event, None, addresses) == Envelope(SUCCESS, IPs(["10.10.10.5", "10.10.10.9"]))
  {
  }

  /** The second of two interfaces is missing: FAILED with its error, no `IPs`. */
  lemma SecondInterfaceMissing(event: Event)
    requires RequestTypeIs(event, "Update")
    requires event.resourceProperties == Some(ResourceProperties(Some(["eni-aaa", "eni-missing"])))
    ensures var addresses := (id: string) =>
      if id == "eni-aaa" then Success("10.10.10.5") else Failure("not found");
      Handle(event, None, addresses) == Envelope(FAILED, Error("not found"))
      && Lookups(event, None, addresses) == ["eni-aaa", "eni-missing"]
  {
  }

  /** The same event delivered twice (a retry after a lost response), the two
      invocations seeing platforms `first` and `second` that answer the same for the
      ids the first one queries: both are answered, with the same status and data, and
      both query the same ids. */
  method Redelivered(event: Event, first: Ec2Service, second: Ec2Service, cfn: CfnResponse)
    requires first.resourceFailure == second.resourceFailure
    requires forall id :: id in Lookups(event, first.resourceFailure, first.addresses) ==>
      first.addresses(id) == second.addresses(id)
    modifies first, second, cfn
    ensures var e := Handle(event, first.resourceFailure, first.addresses);
      cfn.sent == old(cfn.sent) + [Delivery(event, e.status, Encode(e.data)), Delivery(event, e.status, Encode(e.data))]
    ensures first != second ==>
      && first.queried == old(first.queried) + Lookups(event, first.resourceFailure, first.addresses)
      && second.queried == old(second.queried) + Lookups(event, first.resourceFailure, first.addresses)
    ensures first == second ==>
      first.queried == old(first.queried) + Lookups(event, first.resourceFailure, first.addresses)
                                          + Lookups(event, first.resourceFailure, first.addresses)
  {
    SameAnswersSameEnvelope(event, first.resourceFailure, first.addresses, second.addresses);
    LambdaHandler(event, first, cfn);
    LambdaHandler(event, second, cfn);
  }
}
