/**
  Local endpoints and the choice of the endpoint each subnet is bound to.
  Name resolution and socket creation are outside this model: their outcomes
  are inputs (the resolver's error or endpoint list, and what binding a socket
  to each endpoint reports), and a subnet is identified by the endpoint its
  socket is bound to.
 */
module Subnets {
  import opened Errors
  import opened Results

  datatype Family = Ipv4 | Ipv6

  /** A resolved address and port; the address bits themselves are not interpreted. */
  datatype Endpoint = V4(address: nat, port: nat) | V6(address: nat, port: nat)

  function FamilyOf(e: Endpoint): Family {
    match e
    case V4(_, _) => Ipv4
    case V6(_, _) => Ipv6
  }

  /** A socket bound to a local endpoint. */
  datatype Subnet = Subnet(local: Endpoint)

  /** The error a subnet constructor throws when no endpoint of its family was resolved. */
  function InvalidAddress(f: Family): ErrorCode {
    match f
    case Ipv4 => InvalidIpv4Address
    case Ipv6 => InvalidIpv6Address
  }

  /** `endpoints[i]` is the first endpoint of family `f` in the list. */
  predicate IsFirstOfFamily(endpoints: seq<Endpoint>, i: int, f: Family) {
    && 0 <= i < |endpoints|
    && FamilyOf(endpoints[i]) == f
    && forall j :: 0 <= j < i ==> FamilyOf(endpoints[j]) != f
  }

  /** No endpoint of family `f` was resolved. */
  predicate NoneOfFamily(endpoints: seq<Endpoint>, f: Family) {
    forall i :: 0 <= i < |endpoints| ==> FamilyOf(endpoints[i]) != f
  }

  /**
    Creating a subnet of family `f` binds it to `e`: resolution succeeded,
    `e` is the first resolved endpoint of the family, and binding a socket to
    it reports no failure.
   */
  ghost predicate BindsTo(resolved: R<seq<Endpoint>>, f: Family, bind: Endpoint -> ErrorCode, e: Endpoint) {
    && resolved.Value?
    && (exists i :: IsFirstOfFamily(resolved.value, i, f) && resolved.value[i] == e)
    && !IsFailure(bind(e))
  }

  /**
    The loop shared by both subnet constructors. Name resolution either fails
    with an error or yields the endpoint list; the first endpoint of the wanted
    family is bound, and `bind` gives what creating the socket on an endpoint
    reports (a failure is thrown). With no endpoint of the family the
    constructor throws the family's invalid-address error.
   */
  method CreateSubnet(resolved: R<seq<Endpoint>>, f: Family, bind: Endpoint -> ErrorCode) returns (r: R<Subnet>)
    ensures resolved.Error? ==> r == Error(resolved.error)
    ensures resolved.Value? && NoneOfFamily(resolved.value, f) ==> r == Error(InvalidAddress(f))
    ensures resolved.Value? ==> forall i :: IsFirstOfFamily(resolved.value, i, f) ==>
      r == if IsFailure(bind(resolved.value[i])) then Error(bind(resolved.value[i])) else Value(Subnet(resolved.value[i]))
    ensures r.Value? <==> exists e :: BindsTo(resolved, f, bind, e)
    ensures r.Value? ==> BindsTo(resolved, f, bind, r.value.local)
  {
    if resolved.Error? {
      return Error(resolved.error);
    }
    var endpoints := resolved.value;
    var n := 0;
    while n < |endpoints|
      invariant n <= |endpoints|
      invariant forall j :: 0 <= j < n ==> FamilyOf(endpoints[j]) != f
    {
      if FamilyOf(endpoints[n]) == f {
        var e := endpoints[n];
        assert IsFirstOfFamily(endpoints, n, f);
        if IsFailure(bind(e)) {
          return Error(bind(e));
        }
        assert BindsTo(resolved, f, bind, e);
        return Value(Subnet(e));
      }
      n := n + 1;
    }
    return Error(InvalidAddress(f));
  }

  /** `create_ipv4_subnet`: bound to the first resolved IPv4 endpoint, else `INVALID_IPV4_ADDRESS`. */
  method CreateIpv4Subnet(resolved: R<seq<Endpoint>>, bind: Endpoint -> ErrorCode) returns (r: R<Subnet>)
    ensures resolved.Error? ==> r == Error(resolved.error)
    ensures resolved.Value? && (forall i :: 0 <= i < |resolved.value| ==> !resolved.value[i].V4?) ==> r == Error(InvalidIpv4Address)
    ensures resolved.Value? ==> forall i :: IsFirstOfFamily(resolved.value, i, Ipv4) && IsFailure(bind(resolved.value[i])) ==>
      r == Error(bind(resolved.value[i]))
    ensures r.Value? <==> exists e :: BindsTo(resolved, Ipv4, bind, e)
    ensures r.Value? ==> BindsTo(resolved, Ipv4, bind, r.value.local) && r.value.local.V4?
  {
    r := CreateSubnet(resolved, Ipv4, bind);
  }

  /** `create_ipv6_subnet`: bound to the first resolved IPv6 endpoint, else `INVALID_IPV6_ADDRESS`. */
  method CreateIpv6Subnet(resolved: R<seq<Endpoint>>, bind: Endpoint -> ErrorCode) returns (r: R<Subnet>)
    ensures resolved.Error? ==> r == Error(resolved.error)
    ensures resolved.Value? && (forall i :: 0 <= i < |resolved.value| ==> !resolved.value[i].V6?) ==> r == Error(InvalidIpv6Address)
    ensures resolved.Value? ==> forall i :: IsFirstOfFamily(resolved.value, i, Ipv6) && IsFailure(bind(resolved.value[i])) ==>
      r == Error(bind(resolved.value[i]))
    ensures r.Value? <==> exists e :: BindsTo(resolved, Ipv6, bind, e)
    ensures r.Value? ==> BindsTo(resolved, Ipv6, bind, r.value.local) && r.value.local.V6?
  {
    r := CreateSubnet(resolved, Ipv6, bind);
  }
}
