/** The heap of attributes that `HookManager` and `FunctionHijacker` change and put back. */
module Attributes {

  /** An attribute of a container object; the container's identity stands for the container. */
  datatype Target = Target(container: nat, attr: string)

  /** The program whose functions are replaced. */
  class Program<Func> {
    var attrs: map<Target, Func>

    constructor (attrs: map<Target, Func>)
      ensures this.attrs == attrs
    {
      this.attrs := attrs;
    }
  }

  /** The attributes after some of the recorded originals have been put back. */
  ghost function PutBack<Func>(attrs: map<Target, Func>, originals: map<Target, Func>, targets: set<Target>):
      map<Target, Func>
  {
    attrs + map t | t in originals && t in targets :: originals[t]
  }

  lemma PutBackMore<Func>(attrs: map<Target, Func>, originals: map<Target, Func>, targets: set<Target>, t: Target)
    requires t in originals
    ensures PutBack(attrs, originals, targets)[t := originals[t]] == PutBack(attrs, originals, targets + {t})
  {
  }

  lemma PutBackEnds<Func>(attrs: map<Target, Func>, originals: map<Target, Func>)
    ensures PutBack(attrs, originals, {}) == attrs
    ensures PutBack(attrs, originals, originals.Keys) == attrs + originals
  {
    assert (map t | t in originals && t in originals.Keys :: originals[t]) == originals;
  }

  lemma DropMore<V>(table: map<Target, V>, targets: set<Target>, t: Target)
    ensures table - targets - {t} == table - (targets + {t})
  {
  }
}
