/**
 The state directory as the code sees it: one object whose methods replace,
 remove and read the files. How a replacement ends is a parameter; each is the
 `Written` of `StateFiles.CallIsWrite`, which a real call on the shared
 directory has with one of the three outcomes.
 */
module StateDir {
  import opened Common
  import opened DurableFile
  import opened LocalAccountBinding
  import opened ClaimSystem
  import opened StateFiles

  datatype LoadResult<T> = LoadOk(value: Option<T>) | LoadFailed

  class StateDirectory {
    var marker: DiskFile<Marker>
    var secret: DiskFile<Bytes>
    var binding: DiskFile<Binding>
    var creds: DiskFile<Credentials>

    function Contents(): Disk
      reads this
    {
      Disk(marker, secret, binding, creds)
    }

    constructor (d: Disk)
      ensures Contents() == d
    {
      marker, secret, binding, creds := d.marker, d.secret, d.binding, d.creds;
    }

    /** The directory sync that ends a successful write: every entry becomes durable. */
    method SyncDirectory()
      modifies this
      ensures Contents() == DirSync(old(Contents()), Synced)
    {
      marker := marker.Settled();
      secret := secret.Settled();
      binding := binding.Settled();
      creds := creds.Settled();
    }

    method Claimed() returns (claimed: bool)
      ensures claimed == IsClaimed(Contents())
    {
      claimed := marker.now.Some?;
    }

    /** The hub's marker replaces whatever marker there is, owner included. */
    method MarkClaimed(deviceId: DeviceId, accountId: string, atMs: int, o: WriteOutcome) returns (ok: bool)
      modifies this
      ensures Contents() == Written(old(Contents()), WriteMarker(HubMarker(deviceId, accountId, atMs)), o)
      ensures ok == o.Synced?
    {
      marker := marker.Put(HubMarker(deviceId, accountId, atMs), o);
      if o.Synced? { SyncDirectory(); }
      ok := o.Synced?;
    }

    method MarkClaimedLocal(ownerPubkey: Array32, atMs: int, o: WriteOutcome) returns (ok: bool)
      modifies this
      ensures Contents() == Written(old(Contents()), WriteMarker(LocalMarker(ownerPubkey, atMs)), o)
      ensures ok == o.Synced?
    {
      marker := marker.Put(LocalMarker(ownerPubkey, atMs), o);
      if o.Synced? { SyncDirectory(); }
      ok := o.Synced?;
    }

    /** Removing a file that is not there is no error. */
    method DeleteClaimSecret(removed: bool) returns (ok: bool)
      modifies this
      ensures Contents() == DeleteSecret(old(Contents()), removed)
      ensures ok <==> removed || old(secret).now.None?
    {
      ok := removed || secret.now.None?;
      if removed && secret.now.Some? { secret := secret.Unlinked(); }
    }

    method PersistPairCredentials(c: Credentials, o: WriteOutcome) returns (ok: bool)
      modifies this
      ensures Contents() == Written(old(Contents()), WriteCredentials(c), o) && ok == o.Synced?
    {
      creds := creds.Put(c, o);
      if o.Synced? { SyncDirectory(); }
      ok := o.Synced?;
    }

    method PersistLocalAccountBinding(b: Binding, o: WriteOutcome) returns (ok: bool)
      modifies this
      ensures Contents() == Written(old(Contents()), WriteBinding(b), o) && ok == o.Synced?
    {
      binding := binding.Put(b, o);
      if o.Synced? { SyncDirectory(); }
      ok := o.Synced?;
    }

    /** A missing file is `Ok(None)`, any other failure an error. */
    method LoadLocalAccountBinding(readOk: bool) returns (r: LoadResult<Binding>)
      ensures r.LoadFailed? <==> !readOk && binding.now.Some?
      ensures r.LoadOk? ==> r.value == binding.now
    {
      if binding.now.None? { r := LoadOk(None); }
      else if readOk { r := LoadOk(binding.now); }
      else { r := LoadFailed; }
    }

    /** Only the sync of this write touches the modelled files; the key file itself is not one of them. */
    method PersistDeviceKey(seed: Bytes, o: WriteOutcome) returns (ok: bool)
      modifies this
      ensures Contents() == Written(old(Contents()), WriteDeviceKey(seed), o) && ok == o.Synced?
    {
      if o.Synced? { SyncDirectory(); }
      ok := o.Synced?;
    }

    /** The stored secret when it has 16 bytes, else a fresh one, provided its write succeeds. */
    method LoadOrCreateSecret(generated: Array16, o: WriteOutcome) returns (r: Option<Array16>)
      modifies this
      ensures var stored := old(secret).now;
              if stored.Some? && |stored.value| == 16 then r == stored && Contents() == old(Contents())
              else Contents() == Written(old(Contents()), WriteSecret(generated), o)
                   && r == if o.Synced? then Some(generated) else None
    {
      if secret.now.Some? && |secret.now.value| == 16 {
        return Some(secret.now.value);
      }
      secret := secret.Put(generated, o);
      if o.Synced? { SyncDirectory(); }
      r := if o.Synced? then Some(generated) else None;
    }
  }
}
