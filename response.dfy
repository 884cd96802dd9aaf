/** What the handler reports to CloudFormation through `cfnresponse.send`
    (cdk/index.ts:132-149): a status and a data dictionary. */
module Response {
  import opened Wrappers
  import opened Request

  /** `cfnresponse.SUCCESS` and `cfnresponse.FAILED`. */
  datatype Status = SUCCESS | FAILED

  /** A value of the response dictionary: a string or a list of strings. */
  datatype Value = Text(text: string) | TextList(items: seq<string>)

  /** The Python `responseData` dictionary. */
  type Dict = map<string, Value>

  /** The three shapes `responseData` takes when it is sent:
      `{}`, `{'IPs': [...]}` and `{'error': msg}`. */
  datatype Data = Empty | IPs(ips: seq<string>) | Error(message: string)

  /** The envelope the handler decides on. */
  datatype Envelope = Envelope(status: Status, data: Data)

  const IpsKey := "IPs"
  const ErrorKey := "error"

  /** The message the handler reports for an event without `RequestType` (cdk/index.ts:135). */
  const RequestTypeMissing := "RequestType not in event"

  /** The dictionary that carries a data shape. */
  function Encode(d: Data): (m: Dict)
    ensures d.Empty? <==> m == map[]
    ensures IpsKey in m <==> d.IPs?
    ensures ErrorKey in m <==> d.Error?
    ensures |m.Keys| <= 1
  {
    match d
    case Empty => map[]
    case IPs(ips) => map[IpsKey := TextList(ips)]
    case Error(msg) => map[ErrorKey := Text(msg)]
  }

  /** Reads a dictionary back as one of the three shapes, if it is one. */
  function Decode(m: Dict): (r: Option<Data>)
  {
    if m == map[] then Some(Empty)
    else if m.Keys == {IpsKey} && m[IpsKey].TextList? then Some(IPs(m[IpsKey].items))
    else if m.Keys == {ErrorKey} && m[ErrorKey].Text? then Some(Error(m[ErrorKey].text))
    else None
  }

  /** Every data shape survives the trip through its dictionary. */
  lemma DecodeEncode(d: Data)
    ensures Decode(Encode(d)) == Some(d)
  {
  }

  /** A dictionary that decodes is exactly the encoding of what it decodes to,
      so `Encode` and `Decode` are inverse on the three shapes. */
  lemma EncodeDecode(m: Dict, d: Data)
    requires Decode(m) == Some(d)
    ensures Encode(d) == m
  {
  }

  /** One call of `cfnresponse.send`: the event it answers, the status and the data. */
  datatype Delivery = Delivery(event: Event, status: Status, data: Dict)

  /** The `cfnresponse` module. The HTTP PUT to the event's `ResponseURL` is not
      modelled; `sent` records, in order, every response handed to it. */
  class CfnResponse {
    ghost var sent: seq<Delivery>

    constructor ()
      ensures sent == []
    {
      sent := [];
    }

    /** `cfnresponse.send(event, context, responseStatus, responseData)`. */
    method Send(event: Event, status: Status, data: Dict)
      modifies this
      ensures sent == old(sent) + [Delivery(event, status, data)]
    {
      sent := sent + [Delivery(event, status, data)];
    }
  }
}
