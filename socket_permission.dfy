/** The install-time warnings of an extension's socket permission
    (chrome/common/extensions/permissions/socket_permission.cc).

    A socket permission holds a set of entries; each names a host pattern and
    an operation. From them GetMessages builds the ordered list of warning
    messages shown to the user: one "any host" warning, or else one warning
    listing the specific hosts and one listing the domains, followed by one
    "network state" warning per entry that asks for the network state.
    Localised texts are modelled by their string-resource ids. */
module Permissions {
  import opened HostSet

  /** SocketPermissionEntry::HostType. */
  datatype HostType = AnyHost | HostsInDomains | SpecificHosts

  /** The operation a pattern grants; only NETWORK_STATE matters here. */
  datatype OperationType = NetworkStateOperation | OtherOperation

  /** The pattern of an entry: its operation and its host (for
      HOSTS_IN_DOMAINS, the domain). The port is not used here. */
  datatype SocketPermissionRequest = SocketPermissionRequest(operation: OperationType, host: string)

  /** One element of the permission's data set. `addressBound` is the answer
      of SocketPermissionEntry::IsAddressBoundType(). */
  datatype SocketPermissionEntry = SocketPermissionEntry(
    hostType: HostType,
    addressBound: bool,
    pattern: SocketPermissionRequest)

  /** PermissionMessage::ID values this permission produces. */
  datatype MessageId = SocketAnyHost | SocketSpecificHosts | SocketDomainHosts | NetworkState

  /** The IDS_EXTENSION_PROMPT_WARNING_* string resources. */
  datatype StringId =
    | WarningSocketAnyHost
    | WarningSocketSpecificHost
    | WarningSocketSpecificHosts
    | WarningSocketHostsInDomain
    | WarningSocketHostsInDomains
    | WarningNetworkState

  /** A message text: a resource string, or a resource string formatted with
      the space-separated host list. */
  datatype MessageText = Plain(resource: StringId) | WithHostList(resource: StringId, hosts: string)

  datatype PermissionMessage = PermissionMessage(id: MessageId, text: MessageText)

  const AnyHostMessage := PermissionMessage(SocketAnyHost, Plain(WarningSocketAnyHost))
  const NetworkStateMessage := PermissionMessage(NetworkState, Plain(WarningNetworkState))

  // ---------------------------------------------------------------------
  // Specification

  predicate IsAnyHostEntry(e: SocketPermissionEntry)
  {
    e.addressBound && e.hostType == AnyHost
  }

  predicate HasAnyHostEntry(data: seq<SocketPermissionEntry>)
  {
    exists e :: e in data && IsAnyHostEntry(e)
  }

  /** The distinct hosts of the entries of host type `t`. */
  function HostsOfType(data: seq<SocketPermissionEntry>, t: HostType): set<string>
  {
    set e | e in data && e.hostType == t :: e.pattern.host
  }

  /** The ordered set of hosts of type `t` that a pass over `data` builds. */
  function CollectedHosts(data: seq<SocketPermissionEntry>, t: HostType): (hosts: seq<string>)
    ensures StrictlySorted(hosts)
    ensures Elements(hosts) == HostsOfType(data, t)
  {
    if data == [] then []
    else
      var prefix := data[..|data| - 1];
      var e := data[|data| - 1];
      var before := CollectedHosts(prefix, t);
      assert data == prefix + [e];
      if e.hostType == t then Insert(before, e.pattern.host) else before
  }

  /** At most one message: none for no hosts, else the singular or plural
      resource with the joined host list. */
  function HostListMessage(hosts: seq<string>, id: MessageId, singular: StringId, plural: StringId): seq<PermissionMessage>
  {
    if |hosts| == 0 then []
    else [PermissionMessage(id, WithHostList(if |hosts| == 1 then singular else plural, Join(hosts)))]
  }

  function SpecificHostMessages(data: seq<SocketPermissionEntry>): seq<PermissionMessage>
  {
    HostListMessage(CollectedHosts(data, SpecificHosts), SocketSpecificHosts,
                    WarningSocketSpecificHost, WarningSocketSpecificHosts)
  }

  function DomainHostMessages(data: seq<SocketPermissionEntry>): seq<PermissionMessage>
  {
    HostListMessage(CollectedHosts(data, HostsInDomains), SocketDomainHosts,
                    WarningSocketHostsInDomain, WarningSocketHostsInDomains)
  }

  /** One network-state message per entry asking for NETWORK_STATE, in order. */
  function NetworkListMessages(data: seq<SocketPermissionEntry>): seq<PermissionMessage>
  {
    if data == [] then []
    else
      NetworkListMessages(data[..|data| - 1]) +
      (if data[|data| - 1].pattern.operation == NetworkStateOperation then [NetworkStateMessage] else [])
  }

  /** The host part of the list: the any-host warning, or else the
      specific-hosts and the domain warnings. */
  function HostMessages(data: seq<SocketPermissionEntry>): seq<PermissionMessage>
  {
    if HasAnyHostEntry(data) then [AnyHostMessage]
    else SpecificHostMessages(data) + DomainHostMessages(data)
  }

  /** The whole warning list of a socket permission. */
  function Messages(data: seq<SocketPermissionEntry>): seq<PermissionMessage>
  {
    HostMessages(data) + NetworkListMessages(data)
  }

  // ---------------------------------------------------------------------
  // The permission

  class SocketPermission {
    /** `data_set_`, listed in the set's iteration order. */
    const dataSet: seq<SocketPermissionEntry>

    constructor (dataSet: seq<SocketPermissionEntry>)
      ensures this.dataSet == dataSet
    {
      this.dataSet := dataSet;
    }

    /** HasMessages() of the set-disjunction base class: the set is not empty. */
    predicate HasMessages()
    {
      |dataSet| > 0
    }

    method GetMessages() returns (result: seq<PermissionMessage>)
      requires HasMessages()
      ensures result == Messages(dataSet)
    {
      result := [];
      var anyHost;
      anyHost, result := AddAnyHostMessage(result);
      if !anyHost {
        result := AddSpecificHostMessage(result);
        result := AddSubdomainHostMessage(result);
      }
      result := AddNetworkListMessage(result);
    }

    /** Appends the any-host warning for the first address-bound ANY_HOST
        entry and reports whether it did. */
    method AddAnyHostMessage(messages: seq<PermissionMessage>) returns (added: bool, out: seq<PermissionMessage>)
      ensures added <==> HasAnyHostEntry(dataSet)
      ensures out == messages + (if added then [AnyHostMessage] else [])
    {
      for i := 0 to |dataSet|
        invariant forall k :: 0 <= k < i ==> !IsAnyHostEntry(dataSet[k])
      {
        if dataSet[i].addressBound && dataSet[i].hostType == AnyHost {
          assert dataSet[i] in dataSet;
          out := messages + [AnyHostMessage];
          return true, out;
        }
      }
      return false, messages;
    }

    /** Builds the ordered set of the hosts of the entries of type `t`. */
    method CollectHosts(t: HostType) returns (hosts: seq<string>)
      ensures StrictlySorted(hosts)
      ensures hosts == CollectedHosts(dataSet, t)
    {
      hosts := [];
      for i := 0 to |dataSet|
        invariant hosts == CollectedHosts(dataSet[..i], t)
      {
        assert dataSet[..i + 1][..i] == dataSet[..i];
        if dataSet[i].hostType == t {
          hosts := Insert(hosts, dataSet[i].pattern.host);
        }
      }
      assert dataSet[..|dataSet|] == dataSet;
    }

    method AddSubdomainHostMessage(messages: seq<PermissionMessage>) returns (out: seq<PermissionMessage>)
      ensures out == messages + DomainHostMessages(dataSet)
    {
      var domains := CollectHosts(HostsInDomains);
      out := messages;
      if |domains| != 0 {
        var id := if |domains| == 1 then WarningSocketHostsInDomain else WarningSocketHostsInDomains;
        out := out + [PermissionMessage(SocketDomainHosts, WithHostList(id, Join(domains)))];
      }
    }

    method AddSpecificHostMessage(messages: seq<PermissionMessage>) returns (out: seq<PermissionMessage>)
      ensures out == messages + SpecificHostMessages(dataSet)
    {
      var hostnames := CollectHosts(SpecificHosts);
      out := messages;
      if |hostnames| != 0 {
        var id := if |hostnames| == 1 then WarningSocketSpecificHost else WarningSocketSpecificHosts;
        out := out + [PermissionMessage(SocketSpecificHosts, WithHostList(id, Join(hostnames)))];
      }
    }

    method AddNetworkListMessage(messages: seq<PermissionMessage>) returns (out: seq<PermissionMessage>)
      ensures out == messages + NetworkListMessages(dataSet)
    {
      out := messages;
      for i := 0 to |dataSet|
        invariant out == messages + NetworkListMessages(dataSet[..i])
      {
        assert dataSet[..i + 1][..i] == dataSet[..i];
        if dataSet[i].pattern.operation == NetworkStateOperation {
          out := out + [NetworkStateMessage];
        }
      }
      assert dataSet[..|dataSet|] == dataSet;
    }
  }

  // ---------------------------------------------------------------------
  // Properties of the warning list

  /** Every message of the network-state part is the network-state warning. */
  lemma {:induction false} NetworkListMessagesAreNetworkState(data: seq<SocketPermissionEntry>)
    ensures forall m :: m in NetworkListMessages(data) ==> m == NetworkStateMessage
    decreases |data|
  {
    if data != [] {
      NetworkListMessagesAreNetworkState(data[..|data| - 1]);
    }
  }

  /** The positions of the listing whose entry asks for NETWORK_STATE. */
  function NetworkStatePositions(data: seq<SocketPermissionEntry>): set<int>
  {
    set i | 0 <= i < |data| && data[i].pattern.operation == NetworkStateOperation
  }

  lemma NetworkStatePositionsSnoc(prefix: seq<SocketPermissionEntry>, last: SocketPermissionEntry)
    ensures NetworkStatePositions(prefix + [last])
            == NetworkStatePositions(prefix)
               + (if last.pattern.operation == NetworkStateOperation then {|prefix|} else {})
  {
    var data := prefix + [last];
    assert forall i :: 0 <= i < |prefix| ==> data[i] == prefix[i];
  }

  /** There is one network-state warning per element of the listing that asks
      for NETWORK_STATE. */
  lemma {:induction false} NetworkStateMessageCount(data: seq<SocketPermissionEntry>)
    ensures |NetworkListMessages(data)| == |NetworkStatePositions(data)|
    decreases |data|
  {
    if data != [] {
      var prefix := data[..|data| - 1];
      var last := data[|data| - 1];
      NetworkStateMessageCount(prefix);
      assert data == prefix + [last];
      NetworkStatePositionsSnoc(prefix, last);
      assert |prefix| !in NetworkStatePositions(prefix);
    }
  }

  /** After the host part, every message is a network-state warning. */
  lemma MessagesSplit(data: seq<SocketPermissionEntry>)
    ensures forall i :: 0 <= i < |HostMessages(data)| ==> Messages(data)[i] == HostMessages(data)[i]
    ensures forall i :: |HostMessages(data)| <= i < |Messages(data)| ==> Messages(data)[i] == NetworkStateMessage
  {
    NetworkListMessagesAreNetworkState(data);
    var hs := HostMessages(data);
    var tail := NetworkListMessages(data);
    forall i | |hs| <= i < |Messages(data)| ensures Messages(data)[i] == NetworkStateMessage {
      assert Messages(data)[i] == tail[i - |hs|];
      assert tail[i - |hs|] in tail;
    }
  }

  /** The any-host warning appears iff some entry is address-bound with host
      type ANY_HOST; then it comes first and everything after it is a
      network-state warning, so no host-list warning appears. */
  lemma AnyHostMessageRule(data: seq<SocketPermissionEntry>)
    ensures (exists i :: 0 <= i < |Messages(data)| && Messages(data)[i].id == SocketAnyHost)
            <==> HasAnyHostEntry(data)
    ensures HasAnyHostEntry(data) ==>
              && Messages(data)[0] == AnyHostMessage
              && forall i :: 1 <= i < |Messages(data)| ==> Messages(data)[i] == NetworkStateMessage
  {
    MessagesSplit(data);
    var hs := HostMessages(data);
    if HasAnyHostEntry(data) {
      assert Messages(data)[0].id == SocketAnyHost;
    } else {
      assert forall i :: 0 <= i < |hs| ==> hs[i].id in {SocketSpecificHosts, SocketDomainHosts};
    }
  }

  /** The position of a message kind in the list. */
  function Rank(id: MessageId): nat
  {
    match id
    case SocketAnyHost => 0
    case SocketSpecificHosts => 1
    case SocketDomainHosts => 2
    case NetworkState => 3
  }

  /** The warnings come in the order any-host, specific hosts, domains,
      network state, and only network-state warnings repeat. */
  lemma MessagesOrdered(data: seq<SocketPermissionEntry>)
    ensures forall i, j :: 0 <= i < j < |Messages(data)| ==>
              Rank(Messages(data)[i].id) <= Rank(Messages(data)[j].id)
    ensures forall i, j :: 0 <= i < j < |Messages(data)| && Messages(data)[i].id == Messages(data)[j].id ==>
              Messages(data)[i].id == NetworkState
  {
    MessagesSplit(data);
    var hs := HostMessages(data);
    assert |hs| <= 2;
    assert forall i :: 0 <= i < |hs| ==> Rank(hs[i].id) < 3;
    assert forall i, j :: 0 <= i < j < |hs| ==> Rank(hs[i].id) < Rank(hs[j].id);
  }

  /** The rule shared by the two host-list warnings, over host type `t`. */
  lemma HostListMessageRule(data: seq<SocketPermissionEntry>, t: HostType, id: MessageId, singular: StringId, plural: StringId)
    ensures var ms := HostListMessage(CollectedHosts(data, t), id, singular, plural);
            && (|ms| == 1 <==> exists e :: e in data && e.hostType == t)
            && |ms| <= 1
            && forall m :: m in ms ==>
                 m == PermissionMessage(id, WithHostList(if |HostsOfType(data, t)| == 1 then singular else plural,
                                                         Join(CollectedHosts(data, t))))
  {
    var hosts := CollectedHosts(data, t);
    SortedCardinality(hosts);
    if e :| e in data && e.hostType == t {
      assert e.pattern.host in HostsOfType(data, t);
    }
  }

  /** A message kind other than network state occurs in the whole list
      exactly where it occurs in the host part. */
  lemma HostKindInMessages(data: seq<SocketPermissionEntry>, id: MessageId)
    requires id != NetworkState
    ensures (exists i :: 0 <= i < |Messages(data)| && Messages(data)[i].id == id)
            <==> (exists m :: m in HostMessages(data) && m.id == id)
    ensures forall i :: 0 <= i < |Messages(data)| && Messages(data)[i].id == id ==>
              Messages(data)[i] in HostMessages(data)
  {
    MessagesSplit(data);
    var hs := HostMessages(data);
    if m :| m in hs && m.id == id {
      var k :| 0 <= k < |hs| && hs[k] == m;
      assert Messages(data)[k].id == id;
    }
  }

  /** The specific-hosts warning: present iff no any-host warning and some
      SPECIFIC_HOSTS entry exists; singular iff exactly one distinct host name;
      its argument is the sorted, de-duplicated host names joined by spaces. */
  lemma SpecificHostsMessageRule(data: seq<SocketPermissionEntry>)
    ensures (exists i :: 0 <= i < |Messages(data)| && Messages(data)[i].id == SocketSpecificHosts)
            <==> !HasAnyHostEntry(data) && exists e :: e in data && e.hostType == SpecificHosts
    ensures forall i :: 0 <= i < |Messages(data)| && Messages(data)[i].id == SocketSpecificHosts ==>
              Messages(data)[i].text ==
                WithHostList(if |HostsOfType(data, SpecificHosts)| == 1 then WarningSocketSpecificHost
                             else WarningSocketSpecificHosts,
                             Join(CollectedHosts(data, SpecificHosts)))
  {
    HostKindInMessages(data, SocketSpecificHosts);
    HostListMessageRule(data, SpecificHosts, SocketSpecificHosts, WarningSocketSpecificHost, WarningSocketSpecificHosts);
    var specific := SpecificHostMessages(data);
    var domain := DomainHostMessages(data);
    assert forall m :: m in domain ==> m.id == SocketDomainHosts;
    if !HasAnyHostEntry(data) {
      assert HostMessages(data) == specific + domain;
      assert forall m :: m in HostMessages(data) && m.id == SocketSpecificHosts ==> m in specific;
      if |specific| == 1 {
        assert specific[0] in HostMessages(data);
      }
    }
  }

  /** The domain warning follows the same rule over HOSTS_IN_DOMAINS entries;
      whether an entry is address-bound plays no part. */
  lemma DomainHostsMessageRule(data: seq<SocketPermissionEntry>)
    ensures (exists i :: 0 <= i < |Messages(data)| && Messages(data)[i].id == SocketDomainHosts)
            <==> !HasAnyHostEntry(data) && exists e :: e in data && e.hostType == HostsInDomains
    ensures forall i :: 0 <= i < |Messages(data)| && Messages(data)[i].id == SocketDomainHosts ==>
              Messages(data)[i].text ==
                WithHostList(if |HostsOfType(data, HostsInDomains)| == 1 then WarningSocketHostsInDomain
                             else WarningSocketHostsInDomains,
                             Join(CollectedHosts(data, HostsInDomains)))
  {
    HostKindInMessages(data, SocketDomainHosts);
    HostListMessageRule(data, HostsInDomains, SocketDomainHosts, WarningSocketHostsInDomain, WarningSocketHostsInDomains);
    var specific := SpecificHostMessages(data);
    var domain := DomainHostMessages(data);
    assert forall m :: m in specific ==> m.id == SocketSpecificHosts;
    if !HasAnyHostEntry(data) {
      assert HostMessages(data) == specific + domain;
      assert forall m :: m in HostMessages(data) && m.id == SocketDomainHosts ==> m in domain;
      if |domain| == 1 {
        assert domain[0] in HostMessages(data);
      }
    }
  }

  /** The host list of a warning depends on the set of entries only, not on
      the order in which the set is iterated. */
  lemma HostListIndependentOfOrder(data1: seq<SocketPermissionEntry>, data2: seq<SocketPermissionEntry>, t: HostType)
    requires forall e :: e in data1 <==> e in data2
    ensures CollectedHosts(data1, t) == CollectedHosts(data2, t)
  {
    assert HostsOfType(data1, t) == HostsOfType(data2, t);
    SortedDeterminedByElements(CollectedHosts(data1, t), CollectedHosts(data2, t));
  }
}
