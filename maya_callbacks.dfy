/** The reference-creation callback registry of haymaker/maya.py
    (`_reference_create_callbacks` and `add_callback_to_reference_create`):
    a module-level set of known callbacks, meant to keep a callback from
    being hooked into Maya twice. */
module MayaCallbacks {

  /** A callable, by identity (Python compares the function objects). */
  type Callback = nat

  function SetOf(s: seq<Callback>): set<Callback>
  {
    set k | 0 <= k < |s| :: s[k]
  }

  predicate NoDuplicates(s: seq<Callback>)
  {
    forall i, j | 0 <= i < j < |s| :: s[i] != s[j]
  }

  class ReferenceCallbacks {
    /** `_reference_create_callbacks`. */
    var known: set<Callback>
    /** The callbacks handed to `MSceneMessage.addReferenceCallback`, in
        order: the effect on Maya. */
    var hooked: seq<Callback>

    /** The registry remembers exactly what was hooked, each callback once. */
    predicate Valid()
      reads this
    {
      known == SetOf(hooked) && NoDuplicates(hooked)
    }

    constructor()
      ensures known == {} && hooked == [] && Valid()
    {
      known := {};
      hooked := [];
    }

    /** `add_callback_to_reference_create` as written: `set.union` returns
        a new set that is dropped, so `known` never grows and the same
        callback is hooked again on every call. */
    method AddAsWritten(callback: Callback) returns (added: bool)
      modifies this
      ensures callback in old(known) ==> !added && known == old(known) && hooked == old(hooked)
      ensures callback !in old(known) ==> added && known == old(known) && hooked == old(hooked) + [callback]
    {
      if callback in known {
        return false;
      }
      var _ := known + {callback};
      hooked := hooked + [callback];
      return true;
    }

    /** `add_callback_to_reference_create` with the callback recorded in
        the set: each callback is hooked at most once. */
    method Add(callback: Callback) returns (added: bool)
      requires Valid()
      modifies this
      ensures Valid()
      ensures added <==> callback !in old(known)
      ensures known == old(known) + {callback}
      ensures hooked == if added then old(hooked) + [callback] else old(hooked)
    {
      if callback in known {
        return false;
      }
      known := known + {callback};
      hooked := hooked + [callback];
      assert SetOf(hooked) == SetOf(old(hooked)) + {callback} by {
        assert forall k | 0 <= k < |old(hooked)| :: hooked[k] == old(hooked)[k];
        assert hooked[|hooked| - 1] == callback;
      }
      return true;
    }
  }

  /** Registering one callback twice on a fresh registry, as written:
      both calls report success and Maya gets the callback twice. */
  method AsWrittenHooksTwice(callback: Callback) returns (first: bool, second: bool, hooks: seq<Callback>)
    ensures first && second && hooks == [callback, callback]
    ensures !NoDuplicates(hooks)
  {
    var registry := new ReferenceCallbacks();
    first := registry.AddAsWritten(callback);
    second := registry.AddAsWritten(callback);
    hooks := registry.hooked;
    assert hooks[0] == hooks[1];
  }

  /** The same two registrations with the callback recorded: the second
      is refused and Maya gets the callback once. */
  method CorrectedHooksOnce(callback: Callback) returns (first: bool, second: bool, hooks: seq<Callback>)
    ensures first && !second && hooks == [callback]
  {
    var registry := new ReferenceCallbacks();
    first := registry.Add(callback);
    second := registry.Add(callback);
    hooks := registry.hooked;
  }
}
