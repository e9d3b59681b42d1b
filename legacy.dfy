/**
 * The earlier copy of the library (SHFacFac.js at the repository root).
 * Its store runs the same algorithm as the current one, with the store's
 * state held directly on the store instead of under `_internal`, so the
 * store class of module `SHFacFac` serves for both; what differs is how the
 * factory is reached and how the key prefix is spelled.
 *
 * The root copy opens its inner function with a stray expression statement
 * `ter` (SHFacFac.js:15); evaluating the undeclared name raises a
 * ReferenceError before the API object is built, so as written the copy
 * never yields a factory. The model describes the factory the code
 * evidently means to return.
 */
module SHFacFacLegacy {
  import opened Text
  import opened Engine
  import opened Storage
  import SHFacFac

  /**
   * The key prefix spelled inline in the root store constructor, from the
   * module name (taken from the enclosing function's own name), the
   * namespace and the chosen `prefix` option.
   */
  function InlinePrefix(moduleName: string, ns: string, prefix: string): (r: string)
    ensures moduleName == ModuleName ==> r == StorePrefix(FactoryPrefix(ns), prefix)
  {
    "_" + Lower(moduleName) + "_" + Lower(ns) + "_" + prefix + "-"
  }

  /** What the root `SHFacFac(global, ns)` returns: an API with only `create`. */
  class Factory {
    /** `arguments.callee.name`: the name the enclosing function is declared with. */
    const moduleName: string := ModuleName
    const ns: string

    constructor (ns: string)
      ensures this.ns == ns
    {
      this.ns := ns;
    }

    /**
     * `create(clazz, options)`: a store whose keys carry the inline prefix,
     * the same prefix the current copy derives from `getPrefix()`.
     */
    method Create(clazz: string, options: map<string, Setting>, storage: Backend)
      returns (s: SHFacFac.Store)
      ensures fresh(s)
      ensures s.clazz == clazz && s.storage == storage && s.NS == DataNS(ns)
      ensures s.PREFIX == InlinePrefix(moduleName, ns, ChosenPrefix(options, clazz))
      ensures s.prop == PropsFor(s.PREFIX)
      ensures s.session == ChosenSession(options)
    {
      s := new SHFacFac.Store(FactoryPrefix(ns), ns, clazz, options, storage);
    }
  }
}
