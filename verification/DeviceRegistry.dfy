/** The registry as one thread drives it: the vector of modules, the snapshot, and the
    loops that call the setters. `DeviceModules` treats threads and re-entry. */
module DeviceRegistry {
  import opened DeviceModules

  class Registry {
    var modules: seq<Module>
    var snapshot: Snapshot
    var holds: map<Module, Fields>

    /** Every module holds the snapshot, whenever there is one. */
    ghost predicate Ready()
      reads this
    {
      && (forall m :: m in modules <==> m in holds)
      && (snapshot.Valid? ==> forall m :: m in modules ==> holds[m] == snapshot.fields)
    }

    constructor ()
      ensures Ready() && modules == [] && snapshot == Invalid
    {
      modules, snapshot, holds := [], Invalid, map[];
    }

    /** `apply_snapshot`: the six setters of one module, in order. */
    method ApplySnapshot(m: Module, copy: Fields)
      requires m in holds
      modifies this`holds
      ensures holds == old(holds)[m := copy]
    {
      for k := 0 to 6
        invariant m in holds && holds == old(holds)[m := holds[m]]
        invariant forall j :: 0 <= j < k ==> holds[m][j] == copy[j]
      {
        holds := holds[m := holds[m][k := copy[k]]];
      }
      assert holds[m] == copy;
    }

    method RegisterDeviceModule(m: Module, initial: Fields)
      requires Ready()
      modifies this`modules, this`holds
      ensures Ready()
      ensures m in old(modules) ==> modules == old(modules) && holds == old(holds)
      ensures m !in old(modules) ==>
                && modules == old(modules) + [m]
                && holds == old(holds)[m := if snapshot.Valid? then snapshot.fields else initial]
    {
      for i := 0 to |modules|
        invariant m !in modules[..i]
      {
        if modules[i] == m {
          return;
        }
      }
      modules := modules + [m];
      holds := holds[m := initial];
      if snapshot.Valid? {
        ApplySnapshot(m, snapshot.fields);
      }
    }

    method SyncDeviceModules(source: Fields)
      requires Ready()
      modifies this`snapshot, this`holds
      ensures Ready() && snapshot == Valid(source)
    {
      snapshot := Valid(source);
      for i := 0 to |modules|
        invariant snapshot == Valid(source) && forall m :: m in modules <==> m in holds
        invariant forall j :: 0 <= j < i ==> holds[modules[j]] == source
      {
        ApplySnapshot(modules[i], source);
      }
    }

    method ClearDeviceModuleState()
      requires Ready()
      modifies this`snapshot
      ensures Ready() && snapshot == Invalid
    {
      snapshot := Invalid;
    }
  }
}
