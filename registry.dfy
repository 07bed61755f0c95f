/** The process-wide registry handle of RegistryUtils. */
module Registry {

  /**
   * The registry connection RegistryUtils hands out. Of its behaviour only
   * what the handle does to it is modelled: how often init() was called.
   */
  class ServiceRegistry {
    var initCount: nat

    constructor ()
      ensures initCount == 0
    {
      initCount := 0;
    }

    /** ServiceRegistry.init(), as far as the handle observes it. */
    method Init()
      modifies this
      ensures initCount == old(initCount) + 1
    {
      initCount := initCount + 1;
    }
  }

  /** The static serviceRegistry field of RegistryUtils and the methods that write and read it. */
  class RegistryUtils {
    var serviceRegistry: ServiceRegistry?

    /** Class initialisation: the field starts out null. */
    constructor ()
      ensures serviceRegistry == null
    {
      serviceRegistry := null;
    }

    /**
     * init(): stores the registry ServiceRegistryFactory.getOrCreate returns
     * (given here as `created`) and then calls init() on it.
     */
    method Init(created: ServiceRegistry)
      modifies this, created
      ensures serviceRegistry == created
      ensures created.initCount == old(created.initCount) + 1
    {
      serviceRegistry := created;
      serviceRegistry.Init();
    }

    /** getServiceRegistry(): the registry currently held, null before init or a set. */
    method GetServiceRegistry() returns (r: ServiceRegistry?)
      ensures r == serviceRegistry
    {
      r := serviceRegistry;
    }

    /** setServiceRegistry(r): replaces the held registry; nothing is called on it. */
    method SetServiceRegistry(r: ServiceRegistry?)
      modifies this
      ensures serviceRegistry == r
      ensures r != null ==> r.initCount == old(r.initCount)
    {
      serviceRegistry := r;
    }
  }
}
