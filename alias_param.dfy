/**
 * `alias_param`: the decorator that lets a keyword argument be given under a
 * second name. The wrapper rewrites the call's keyword dictionary in place before
 * calling the wrapped function, which is a parameter here.
 */
module AliasParam {
  import opened Wrappers

  /** The Python values a keyword argument may carry. */
  datatype Arg = NoneArg | BoolArg(b: bool) | IntArg(i: int) | RealArg(x: real) | StrArg(s: string) | ListArg(items: seq<Arg>)

  /** Python truthiness, which decides whether the alias counts as given. */
  predicate Truthy(v: Arg)
  {
    match v
    case NoneArg => false
    case BoolArg(b) => b
    case IntArg(i) => i != 0
    case RealArg(x) => x != 0.0
    case StrArg(s) => s != ""
    case ListArg(items) => items != []
  }

  /** `kwargs.get(alias)` is truthy. */
  predicate AliasGiven(kwargs: map<string, Arg>, alias: string)
  {
    alias in kwargs && Truthy(kwargs[alias])
  }

  /** The keyword dictionary the wrapped function sees. */
  function Aliased(kwargs: map<string, Arg>, name: string, alias: string): (r: map<string, Arg>)
  {
    if AliasGiven(kwargs, alias) then (kwargs[name := kwargs[alias]]) - {alias} else kwargs
  }

  function DeprecationMessage(name: string, alias: string): string
  {
    "Parameter " + alias + " is deprecated and will be removed in a future release. Please use " + name + " instead."
  }

  /** An alias that is absent, None, empty or zero leaves the keywords as they are. */
  lemma UnusedAliasKeeps(kwargs: map<string, Arg>, name: string, alias: string)
    requires !AliasGiven(kwargs, alias)
    ensures Aliased(kwargs, name, alias) == kwargs
  {
  }

  /** A given alias moves its value to the parameter, replacing it, and disappears; nothing else changes. */
  lemma GivenAliasMoves(kwargs: map<string, Arg>, name: string, alias: string)
    requires AliasGiven(kwargs, alias) && name != alias
    ensures var r := Aliased(kwargs, name, alias);
      alias !in r && name in r && r[name] == kwargs[alias]
      && forall k :: k != name && k != alias ==> (k in r <==> k in kwargs) && (k in kwargs ==> r[k] == kwargs[k])
  {
  }

  /** Rewriting twice is rewriting once: after the first the alias is gone. */
  lemma AliasedIdempotent(kwargs: map<string, Arg>, name: string, alias: string)
    requires name != alias
    ensures Aliased(Aliased(kwargs, name, alias), name, alias) == Aliased(kwargs, name, alias)
  {
  }

  /** When the alias is the parameter's own name, a given value is deleted rather than kept. */
  lemma SelfAliasDrops(kwargs: map<string, Arg>, name: string)
    requires AliasGiven(kwargs, name)
    ensures name !in Aliased(kwargs, name, name)
  {
  }

  /** The keyword dictionary of one call. */
  class Kwargs {
    var entries: map<string, Arg>

    constructor (entries: map<string, Arg>)
      ensures this.entries == entries
    {
      this.entries := entries;
    }

    /**
     * The wrapper's body before the call: when the alias is given, warn if asked to,
     * copy its value to the parameter, then delete the alias.
     */
    method Rewrite(name: string, alias: string, deprecateWarning: bool) returns (warning: Option<string>)
      modifies this
      ensures entries == Aliased(old(entries), name, alias)
      ensures warning.Some? <==> deprecateWarning && AliasGiven(old(entries), alias)
      ensures warning.Some? ==> warning.value == DeprecationMessage(name, alias)
    {
      warning := None;
      if alias in entries && Truthy(entries[alias]) {
        var value := entries[alias];
        if deprecateWarning {
          warning := Some(DeprecationMessage(name, alias));
        }
        entries := entries[name := value];
        entries := entries - {alias};
      }
    }
  }

  /**
   * The decorated call: the positional arguments pass through untouched, the
   * keywords are rewritten, and the wrapped function's result is returned as it is.
   */
  method CallAliased(func: (seq<Arg>, map<string, Arg>) -> Arg, args: seq<Arg>, kwargs: Kwargs,
                     name: string, alias: string, deprecateWarning: bool)
    returns (result: Arg, warning: Option<string>)
    modifies kwargs
    ensures kwargs.entries == Aliased(old(kwargs.entries), name, alias)
    ensures result == func(args, Aliased(old(kwargs.entries), name, alias))
    ensures warning.Some? <==> deprecateWarning && AliasGiven(old(kwargs.entries), alias)
  {
    warning := kwargs.Rewrite(name, alias, deprecateWarning);
    result := func(args, kwargs.entries);
  }
}
