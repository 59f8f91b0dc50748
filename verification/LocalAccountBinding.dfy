/** The record of who owns the box. A hub join may only add the hub's device id to it. */
module LocalAccountBinding {
  import opened Common
  import opened Tpm

  datatype AccountClass = Interactive | System
  datatype BindingStatus = Active | Revoked
  datatype HouseholdDelegationGrant =
    HouseholdDelegationGrant(householdId: string, scope: seq<string>, grantedAtMs: int)

  type DeviceId = string

  /** `principalId` and `ownerPubkey` hold the key itself; the source stores its base64 text. */
  datatype Binding = Binding(
    schemaVersion: nat,
    hostId: string,
    principalId: Array32,
    localUid: Option<nat>,
    localUsername: string,
    accountClass: AccountClass,
    status: BindingStatus,
    createdAtMs: int,
    revokedAtMs: Option<int>,
    ownerPubkey: Option<Array32>,
    tpmCustody: Option<TpmCustodyState>,
    householdDelegation: Option<HouseholdDelegationGrant>,
    hubDeviceId: Option<DeviceId>)

  const SCHEMA_VERSION := 0

  /** What a local claim records, field by field. */
  predicate IsFreshOwnerRecord(b: Binding, hostId: string, owner: Array32, username: string, atMs: int,
                               custody: TpmCustodyState) {
    && b.schemaVersion == 0 && b.hostId == hostId && b.localUsername == username && b.localUid.None?
    && b.principalId == owner && b.ownerPubkey == Some(owner) && b.tpmCustody == Some(custody)
    && b.accountClass.Interactive? && b.status.Active? && b.createdAtMs == atMs && b.revokedAtMs.None?
    && b.householdDelegation.None? && b.hubDeviceId.None?
  }

  function NewActiveLocal(hostId: string, owner: Array32, username: string, atMs: int,
                          custody: TpmCustodyState): (b: Binding)
    ensures IsFreshOwnerRecord(b, hostId, owner, username, atMs, custody)
  {
    Binding(SCHEMA_VERSION, hostId, owner, None, username, Interactive, Active, atMs, None,
            Some(owner), Some(custody), None, None)
  }

  function WithHubJoin(b: Binding, device: DeviceId): (r: Binding)
    ensures r.hubDeviceId == Some(device) && r.(hubDeviceId := b.hubDeviceId) == b
  {
    b.(hubDeviceId := Some(device))
  }

  /** A loaded binding. */
  class BindingRecord {
    var value: Binding

    constructor (b: Binding)
      ensures value == b
    {
      value := b;
    }

    method RecordHubJoin(device: DeviceId)
      modifies this
      ensures value == WithHubJoin(old(value), device)
      ensures value == old(value).(hubDeviceId := Some(device))
    {
      value := value.(hubDeviceId := Some(device));
    }
  }
}
