/** The lifecycle event CloudFormation delivers to the custom-resource handler
    (cdk/index.ts:130), and the classification of its `RequestType`. */
module Request {
  import opened Wrappers

  /** The four cases the handler distinguishes for a present `RequestType`. */
  datatype RequestType = Create | Update | Delete | Other(name: string)

  /** `event['RequestType']` as the handler compares it: equal to "Delete",
      one of "Create" and "Update", or anything else. */
  function Parse(s: string): (t: RequestType)
    ensures t == Delete <==> s == "Delete"
    ensures (t == Create || t == Update) <==> (s == "Create" || s == "Update")
    ensures t.Other? <==> s != "Delete" && s != "Create" && s != "Update"
  {
    if s == "Delete" then Delete
    else if s == "Create" then Create
    else if s == "Update" then Update
    else Other(s)
  }

  /** `event['ResourceProperties']`; the handler reads only `NetworkInterfaceIds`. */
  datatype ResourceProperties = ResourceProperties(networkInterfaceIds: Option<seq<string>>)

  /** The event fields the handler reads. `None` stands for a key absent from the event.
      The bookkeeping fields (`RequestId`, `StackId`, `LogicalResourceId`, `ResponseURL`)
      are only handed on to the response sender, which is given the whole event. */
  datatype Event = Event(
    requestType: Option<string>,
    resourceProperties: Option<ResourceProperties>,
    requestId: string,
    stackId: string,
    logicalResourceId: string,
    responseUrl: string)
}
