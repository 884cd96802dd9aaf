# IoT endpoint static IPs: the interface-address custom resource

The CDK stack in `cdk/index.ts` puts a network load balancer with two Elastic IPs in
front of an AWS IoT VPC endpoint. The load balancer targets must be the endpoint's
private IP addresses. CloudFormation cannot look those up itself, so the stack adds a
custom resource backed by a small Python Lambda function, `lambda_handler`. The
function is embedded as a string in `cdk/index.ts:127-149`, and it is the only code in
the repository that runs. This project models that handler in Dafny:

- `Request`: the lifecycle event and how `RequestType` is classified: missing,
  `Delete`, `Create`/`Update`, or anything else.
- `Ec2`: the two `boto3` calls the handler makes. Creating the EC2 resource may raise.
  Reading `private_ip_address` of a network interface makes one query, which returns
  an address or raises. What the platform answers is a fixed function, and a ghost
  log records each interface that was queried.
- `Response`: the status (`SUCCESS`/`FAILED`) and the `responseData` dictionary. The
  dictionary takes one of three shapes: `{}`, `{'IPs': [...]}` or `{'error': msg}`.
  `cfnresponse.send` is modelled as appending one delivery to a ghost log.
- `Resolution`: the ordered, all-or-nothing resolution of the interface ids. It is
  written as the recursive function `Resolve`, with `LookedUp`, the ids the loop
  actually queries.
- `Handler`: the specification `Handle` (which envelope is sent) and `Lookups` (which
  ids are queried). Also the imperative handler `LambdaHandler`, which updates
  `responseStatus` and `responseData` branch by branch as the source does, and its loop
  `CollectAddresses`. The loop collects the `IPs` list, and the handler stores it
  under `'IPs'` when the loop ends; the source appends to the stored list in place,
  which gives the same dictionary because a failure overwrites it. Both methods are
  proved against `Handle` and `Lookups`.
- `HandlerProperties`: what the handler promises, stated over `Handle` and `Lookups`.

Python exceptions are modelled as their message `str(e)`. In particular, a missing
dictionary key raises `KeyError`; for the two keys the handler reads, its message is
the key in single quotes.

Two behaviours of the handler worth knowing:

- The handler does not reject an empty `NetworkInterfaceIds` list on `Create`/`Update`;
  it answers `SUCCESS` with `{'IPs': []}`.
- An unrecognised request type gets `FAILED` with `{}` and no error message.

## Model

| member | source | states |
|---|---|---|
| `Request.Parse` | cdk/index.ts:134-138 | a present `RequestType` is `Delete` exactly when it is "Delete", Create/Update exactly when it is "Create" or "Update", and anything else otherwise |
| `Response.Encode` | cdk/index.ts:133-148 | the data shapes as dictionaries: `{}` exactly for empty data; an `IPs` key exactly for the success list; an `error` key exactly for a failure message; never more than one key |
| `Response.DecodeEncode` | cdk/index.ts:133-148 | every data shape is read back unchanged from its dictionary |
| `Response.EncodeDecode` | cdk/index.ts:133-148 | a dictionary that reads back as a shape is exactly that shape's encoding |
| `Response.CfnResponse.Send` | cdk/index.ts:149 | `cfnresponse.send` records exactly one more delivery: the event, the status and the data |
| `Ec2.Ec2Service.Resource` | cdk/index.ts:141 | `boto3.resource('ec2')` raises the platform's configured failure, if any, and queries nothing |
| `Ec2.Ec2Service.PrivateIpAddress` | cdk/index.ts:144-145 | reading `private_ip_address` returns what the platform answers for that id and logs exactly one query for it |
| `Resolution.Resolve` | cdk/index.ts:143-146 | the specification of the `for` loop: the addresses in input order, or the first lookup's error; no ensures of its own, it is characterised by `ResolveInOrder` and `ResolveFailsAtFirst` |
| `Resolution.ResolveInOrder` | cdk/index.ts:143-146 | resolution succeeds if and only if every lookup succeeds; it then yields one address per id, the id's own address, in input order |
| `Resolution.LookedUp` | cdk/index.ts:143-145 | the queried ids are a prefix of the input; every one but the last resolved; a prefix shorter than the input ends at a failing id; on success every id is queried |
| `Resolution.ResolveFailsAtFirst` | cdk/index.ts:143-148 | a failed resolution carries the error of the first id whose lookup fails |
| `Resolution.FirstFailureSplits` | cdk/index.ts:143-148 | if id k is the first to fail, resolution fails with its error and exactly ids 0..k are queried |
| `Resolution.ResolvePrefixFails` | cdk/index.ts:143-148 | once a prefix of the ids fails, no continuation changes the failure |
| `Resolution.ResolveAfterSuccess` | cdk/index.ts:143-146 | after a prefix that resolved, the rest decides: its failure, or its addresses appended to the prefix's |
| `Resolution.LookedUpAppend` | cdk/index.ts:143-145 | ids after a prefix are queried only if the whole prefix resolved |
| `Resolution.ExtendByOne` | cdk/index.ts:143-145 | one loop step after a resolved prefix: the next id is queried, and its address is appended or its error reported |
| `Resolution.StopAtFailure` | cdk/index.ts:143-148 | after a failure, later ids are neither queried nor change the outcome |
| `Resolution.ResolveDependsOnLookedUp` | cdk/index.ts:143-145 | two platforms that answer the same for the queried ids give the same resolution and the same queries |
| `Handler.InterfaceIds` | cdk/index.ts:141-142 | what the `try` block raises before its loop, in the source's order: the EC2 resource failure, then `KeyError` for `ResourceProperties`, then for `NetworkInterfaceIds`; otherwise the id list; no ensures of its own, it is characterised by `MissingInputFails` |
| `Handler.ResolveEvent` | cdk/index.ts:139-148 | the outcome of the whole `try`/`except`: the addresses, or `str(e)` of the first exception; no ensures of its own, it is characterised by `MissingInputFails`, `ResolvedInOrder` and `FirstLookupFailureFails` |
| `Handler.Handle` | cdk/index.ts:132-148 | a SUCCESS envelope never carries an error; an `IPs` list is only sent with SUCCESS |
| `Handler.Lookups` | cdk/index.ts:134-145 | lookups happen only for Create/Update, only after the EC2 resource and both keys were obtained, and only for a prefix of the listed ids |
| `Handler.CollectAddresses` | cdk/index.ts:143-145 | the `for` loop gives the addresses of all ids in order, or the first lookup's error; it queries exactly the ids `LookedUp` names |
| `Handler.LambdaHandler` | cdk/index.ts:130-149 | every invocation sends exactly one response, with the status and dictionary `Handle` decides, and queries exactly the ids `Lookups` names, in order |
| `HandlerProperties.MissingRequestTypeFails` | cdk/index.ts:132-135 | no `RequestType`: FAILED with `{'error': 'RequestType not in event'}`, and no lookup |
| `HandlerProperties.DeleteSucceeds` | cdk/index.ts:136-137 | `Delete`: SUCCESS with `{}` whatever the resource properties and the platform hold, and no lookup |
| `HandlerProperties.UnrecognizedRequestTypeFails` | cdk/index.ts:132-138 | any other request type falls through: FAILED with `{}`, and no lookup |
| `HandlerProperties.ResolvedInOrder` | cdk/index.ts:138-146 | Create/Update with every lookup succeeding: SUCCESS, `IPs` as long as the id list, `IPs[i]` the address of `ids[i]`; every id queried once, in order |
| `HandlerProperties.EmptyIdsSucceed` | cdk/index.ts:140-146 | Create/Update with an empty id list: SUCCESS with `{'IPs': []}` and no lookup |
| `HandlerProperties.FirstLookupFailureFails` | cdk/index.ts:143-148 | Create/Update whose id k is the first to fail: FAILED with `{'error': <its error>}`, no `IPs` key, and ids after k never queried |
| `HandlerProperties.MissingInputFails` | cdk/index.ts:139-148 | Create/Update when the EC2 resource cannot be created, or `ResourceProperties` or `NetworkInterfaceIds` is missing: FAILED with that exception's message, and no lookup |
| `HandlerProperties.SuccessExactlyWhen` | cdk/index.ts:132-146 | the status is SUCCESS if and only if the event is `Delete`, or it is Create/Update and all inputs are present and every lookup succeeds |
| `HandlerProperties.EnvelopeShape` | cdk/index.ts:132-148 | the data sent is always one of the three shapes; an error is sent exactly when the status is FAILED and `RequestType` was missing or Create/Update; `IPs` only with SUCCESS |
| `HandlerProperties.SameAnswersSameEnvelope` | cdk/index.ts:130-149 | no state between calls: the same event against the same answers for the queried ids gives the same envelope and the same lookups |
| `HandlerProperties.TwoInterfacesResolve` | cdk/index.ts:138-146 | two interfaces that resolve to 10.10.10.5 and 10.10.10.9 give SUCCESS with those addresses in id order |
| `HandlerProperties.SecondInterfaceMissing` | cdk/index.ts:143-148 | a second interface that is not found gives FAILED with the "not found" error, after querying both ids |
| `HandlerProperties.Redelivered` | cdk/index.ts:130-149 | the same event delivered twice, against platforms that answer the same for the queried ids, keeps the earlier deliveries and appends two, both carrying the status and dictionary `Handle` decides; both invocations query the same ids |

## Left out

- The CDK resource definitions (cdk/index.ts:16-118 and 153-226) are declarative CloudFormation configuration with no runtime behaviour. This covers the parameters, VPC, certificate, IoT domain configuration, IAM role, VPC endpoint, Elastic IPs, load balancer, the listener loop, `Fn.select` and the DNS record.
- The log line `print('REQUEST RECEIVED...' + json.dumps(event))` (cdk/index.ts:131) is output only.
- The HTTP PUT that `cfnresponse.send` makes to `ResponseURL` is network I/O. The model records only which event, status and data were handed to it. The fields that `cfnresponse` adds itself (`Reason`, `PhysicalResourceId`, the echoed request, stack and logical ids) are not modelled. `cfnresponse` is not part of this model, and neither is a failure of the PUT.
- The EC2 API behind `boto3` is abstracted. Each interface id maps to an address or to an exception message, and the platform answers the same way throughout one invocation. Across invocations the answers may differ; a redelivery gets the same response only when the answers for the queried ids are the same. Retries inside `boto3` and the kinds of error are not distinguished.
- A `private_ip_address` of `None` is not modelled. The model's lookup always gives a string or raises.
- Event values of unexpected types are not modelled: a non-string `RequestType`, a `ResourceProperties` that is not a dictionary, or a `NetworkInterfaceIds` that is not a list of strings. In Python these would be compared unequal, raise a `TypeError`, or be iterated element by element. The model has `RequestType` as an optional string and the ids as an optional list of strings.
- The Lambda timeout (cdk/index.ts:123) is a wall-clock limit and is not modelled.
- Concurrency: the handler is sequential and keeps no state across invocations.
