/** The part of the EC2 API the handler uses through `boto3` (cdk/index.ts:141-145). */
module Ec2 {
  import opened Wrappers

  /** The platform as the handler sees it. What it answers is fixed for one
      invocation; `queried` records, in order, each interface whose attributes
      were fetched. */
  class Ec2Service {
    /** The exception `boto3.resource('ec2')` raises, as `str(e)`, if it raises. */
    const resourceFailure: Option<string>
    /** For each network-interface id, its private IP address, or `str(e)` of the
        exception raised while loading it. */
    const addresses: string -> Result<string, string>
    ghost var queried: seq<string>

    constructor (resourceFailure: Option<string>, addresses: string -> Result<string, string>)
      ensures this.resourceFailure == resourceFailure && this.addresses == addresses
      ensures queried == []
    {
      this.resourceFailure := resourceFailure;
      this.addresses := addresses;
      queried := [];
    }

    /** `boto3.resource('ec2')`: creating the resource object issues no query. */
    method Resource() returns (failure: Option<string>)
      ensures failure == resourceFailure
    {
      failure := resourceFailure;
    }

    /** `ec2.NetworkInterface(id).private_ip_address`: loads the interface, one query. */
    method PrivateIpAddress(id: string) returns (r: Result<string, string>)
      modifies this
      ensures r == addresses(id)
      ensures queried == old(queried) + [id]
    {
      r := addresses(id);
      queried := queried + [id];
    }
  }
}
