/** The host's side of the conversation (pic/resolver.go): integer parsing
    and font lookups, which the configuration delegates to the host. */
module Resolvers {
  import opened Prelude
  import opened Guids
  import opened FontResources

  /** What the host answers. Each lookup is a fixed function of its
      argument, None standing for an error; the ghost logs record every
      font lookup made, in order. */
  class Resolver {
    const integer: string -> Option<int32>
    const resourceFor: Guid -> Option<FontResource>
    const styleFor: Guid -> Option<FontStyle>
    ghost var resourceCalls: seq<Guid>
    ghost var styleCalls: seq<Guid>

    constructor(integer: string -> Option<int32>,
                resourceFor: Guid -> Option<FontResource>,
                styleFor: Guid -> Option<FontStyle>)
      ensures this.integer == integer && this.resourceFor == resourceFor && this.styleFor == styleFor
      ensures resourceCalls == [] && styleCalls == []
    {
      this.integer := integer;
      this.resourceFor := resourceFor;
      this.styleFor := styleFor;
      resourceCalls := [];
      styleCalls := [];
    }

    /** `resolver.fontResource`: asks the host for a font resource. */
    method FetchFontResource(g: Guid) returns (r: Option<FontResource>)
      modifies this
      ensures r == resourceFor(g)
      ensures resourceCalls == old(resourceCalls) + [g] && styleCalls == old(styleCalls)
    {
      r := resourceFor(g);
      resourceCalls := resourceCalls + [g];
    }

    /** `resolver.fontStyle`: asks the host for a font style. */
    method FetchFontStyle(g: Guid) returns (r: Option<FontStyle>)
      modifies this
      ensures r == styleFor(g)
      ensures styleCalls == old(styleCalls) + [g] && resourceCalls == old(resourceCalls)
    {
      r := styleFor(g);
      styleCalls := styleCalls + [g];
    }
  }
}
