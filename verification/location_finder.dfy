/**
 * The process-wide location finder: one instance shared by reference
 * count between `initialize` and `release`, a last-known-location cell
 * filled by location results, and update requests that need a location
 * permission.  The settings check and the location provider are outside
 * the model: a request either registers for updates or is skipped.
 */
module LocationFinder {
  import opened Wrappers

  datatype Location = Location(latitude: real, longitude: real)

  /** An instance: its identity, the last delivered location, and whether it asked for updates. */
  datatype Finder = Finder(id: nat, lastKnown: Option<Location>, updatesRequested: bool)

  /** The static fields: the instance, its user count, and how many instances were ever created. */
  datatype Registry = Registry(instance: Option<Finder>, users: int, created: nat)

  const EMPTY: Registry := Registry(None, 0, 0)

  /** Either location permission allows update requests. */
  predicate PermissionAvailable(fine: bool, coarse: bool)
  {
    fine || coarse
  }

  /** `requestLocationUpdate`: skipped without permission, otherwise the instance registers for updates. */
  function RequestUpdate(f: Finder, fine: bool, coarse: bool): (r: Finder)
    ensures r.id == f.id && r.lastKnown == f.lastKnown
    ensures r.updatesRequested <==> f.updatesRequested || PermissionAvailable(fine, coarse)
  {
    if !PermissionAvailable(fine, coarse) then f else f.(updatesRequested := true)
  }

  /**
   * `initialize`: the first call creates an instance (with no location)
   * and requests updates; every call adds a user and returns the instance.
   */
  function Initialize(reg: Registry, fine: bool, coarse: bool): (r: (Registry, Finder))
    ensures r.0.users == reg.users + 1 && r.0.instance == Some(r.1)
    ensures reg.instance.Some? ==> r.1 == reg.instance.value && r.0.created == reg.created
    ensures reg.instance.None? ==> r.1.id == reg.created && r.1.lastKnown.None? && r.0.created == reg.created + 1
                                   && (r.1.updatesRequested <==> PermissionAvailable(fine, coarse))
  {
    var f := if reg.instance.Some? then reg.instance.value
             else RequestUpdate(Finder(reg.created, None, false), fine, coarse);
    (Registry(Some(f), reg.users + 1, if reg.instance.Some? then reg.created else reg.created + 1), f)
  }

  /** `getInstance`: the instance, or a RuntimeException when there is none. */
  function GetInstance(reg: Registry): (r: Outcome<Finder>)
    ensures reg.instance.None? <==> r == Thrown(Runtime)
    ensures reg.instance.Some? ==> r == Ok(reg.instance.value)
  {
    match reg.instance
    case None => Thrown(Runtime)
    case Some(f) => Ok(f)
  }

  /** `release`: one user fewer; the instance is dropped when the count reaches zero. */
  function Release(reg: Registry): (r: Registry)
    ensures r.users == reg.users - 1 && r.created == reg.created
    ensures r.users == 0 ==> r.instance.None?
    ensures r.users != 0 ==> r.instance == reg.instance
  {
    var users := reg.users - 1;
    Registry(if users == 0 then None else reg.instance, users, reg.created)
  }

  /** A location result: the current instance, if any, remembers it as the last known location. */
  function OnLocationResult(reg: Registry, location: Location): (r: Registry)
    ensures r.users == reg.users && r.created == reg.created
    ensures reg.instance.None? ==> r.instance.None?
    ensures reg.instance.Some? ==> r.instance == Some(reg.instance.value.(lastKnown := Some(location)))
  {
    match reg.instance
    case None => reg
    case Some(f) => reg.(instance := Some(f.(lastKnown := Some(location))))
  }

  /** `getLastKnownLocation`. */
  function LastKnown(f: Finder): Option<Location>
  {
    f.lastKnown
  }

  /** Balanced use: an instance exists exactly while someone holds it, and it is a created one. */
  predicate Inv(reg: Registry)
  {
    reg.users >= 0 && (reg.instance.Some? <==> reg.users > 0)
    && (reg.instance.Some? ==> reg.instance.value.id < reg.created)
  }

  lemma InitializePreservesInv(reg: Registry, fine: bool, coarse: bool)
    requires Inv(reg)
    ensures Inv(Initialize(reg, fine, coarse).0)
  {
  }

  /** A release by a holder keeps the invariant (a release without a holder breaks the count). */
  lemma ReleasePreservesInv(reg: Registry)
    requires Inv(reg) && reg.users > 0
    ensures Inv(Release(reg))
  {
  }

  /** Every `initialize` while the instance is held returns the very same instance. */
  lemma InitializeShares(reg: Registry, fine: bool, coarse: bool, fine2: bool, coarse2: bool)
    requires Inv(reg)
    ensures var (r1, f1) := Initialize(reg, fine, coarse);
            var (r2, f2) := Initialize(r1, fine2, coarse2);
            f2 == f1 && GetInstance(r2) == Ok(f1) && r2.users == reg.users + 2
  {
  }

  /** Releasing right after initializing undoes the count; the instance survives iff others hold it. */
  lemma InitializeReleaseRoundTrip(reg: Registry, fine: bool, coarse: bool)
    requires Inv(reg)
    ensures var r := Release(Initialize(reg, fine, coarse).0);
            r.users == reg.users
            && (reg.users == 0 ==> r.instance.None? && GetInstance(r) == Thrown(Runtime))
            && (reg.users > 0 ==> r.instance == reg.instance)
  {
  }

  /** n initializations followed by n releases, from an empty registry. */
  function Cycle(reg: Registry, n: nat, fine: bool, coarse: bool): Registry
    decreases n
  {
    if n == 0 then reg else Release(Cycle(Initialize(reg, fine, coarse).0, n - 1, fine, coarse))
  }

  /**
   * Nested initialize/release pairs on a registry nobody holds leave it
   * empty again: the count returns to zero and the instance is dropped.
   */
  lemma {:induction false} CycleDropsInstance(reg: Registry, n: nat, fine: bool, coarse: bool)
    requires Inv(reg)
    ensures Cycle(reg, n, fine, coarse).users == reg.users
    ensures Inv(Cycle(reg, n, fine, coarse))
    ensures reg.users > 0 ==> Cycle(reg, n, fine, coarse).instance == reg.instance
    ensures reg.users == 0 ==> Cycle(reg, n, fine, coarse).instance.None?
    decreases n
  {
    if n > 0 {
      var next := Initialize(reg, fine, coarse).0;
      InitializePreservesInv(reg, fine, coarse);
      CycleDropsInstance(next, n - 1, fine, coarse);
    }
  }

  /** The last known location is empty until a result arrives, then it is the latest result. */
  lemma LastKnownIsLatest(reg: Registry, fine: bool, coarse: bool, a: Location, b: Location)
    requires Inv(reg) && reg.users == 0
    ensures var (r0, f0) := Initialize(reg, fine, coarse);
            LastKnown(f0).None?
            && GetInstance(OnLocationResult(OnLocationResult(r0, a), b)).value.lastKnown == Some(b)
  {
  }
}
