/** The registration logic of MonoBehaviourSingleton<T>: the first component of
    a type to wake up becomes the type's Instance; any other component of that
    type that wakes up afterwards is destroyed and its Awake throws. */
module Singletons {

  /** How a call of Awake ends: normally, or with the exception it throws. */
  datatype Outcome = Registered | Thrown(message: string)

  /** The static `Instance` property of MonoBehaviourSingleton<T> for one type T. */
  class InstanceSlot {
    /** The name of T, as the exception message spells it. */
    const typeName: string
    var instance: MonoBehaviourSingleton?

    constructor (typeName: string)
      ensures this.typeName == typeName && instance == null
    {
      this.typeName := typeName;
      instance := null;
    }

    /** `Instance` as UnityEngine.Object's overloaded `==` and `!=` see it: a
        registered component that has since been destroyed compares equal to
        null. */
    function LiveInstance(): (r: MonoBehaviourSingleton?)
      reads this, instance
    {
      if instance != null && !instance.destroyed then instance else null
    }
  }

  /** Awake rejects `self` exactly when another live object is registered;
      `instance` is the registered object as Unity's `!=` sees it. */
  predicate Rejects(instance: MonoBehaviourSingleton?, self: MonoBehaviourSingleton) {
    instance != null && instance != self
  }

  /** The registered object after `self` wakes up: the first one registered
      stays, and an empty slot takes `self`. */
  function InstanceAfterAwake(instance: MonoBehaviourSingleton?, self: MonoBehaviourSingleton): (r: MonoBehaviourSingleton)
    ensures instance != null ==> r == instance
    ensures instance == null ==> r == self
  {
    if Rejects(instance, self) then instance else self
  }

  /** The registered object after the components `objects` wake up in turn. */
  function InstanceAfterAwakes(instance: MonoBehaviourSingleton?, objects: seq<MonoBehaviourSingleton>): (r: MonoBehaviourSingleton?)
    ensures instance != null ==> r == instance
    ensures instance == null ==> r == if objects == [] then null else objects[0]
    decreases |objects|
  {
    if objects == [] then instance
    else InstanceAfterAwakes(InstanceAfterAwake(instance, objects[0]), objects[1..])
  }

  /** Once the first component has woken up, a later Awake fails exactly for
      the components that are not that first one. */
  lemma LaterAwakeFailsForOthers(objects: seq<MonoBehaviourSingleton>, k: nat)
    requires 0 < k < |objects|
    ensures Rejects(InstanceAfterAwakes(null, objects[..k]), objects[k]) <==> objects[k] != objects[0]
  {
  }

  /** A component whose base class is MonoBehaviourSingleton<T>; `slot` is the
      static `Instance` of its type T. */
  class MonoBehaviourSingleton {
    const slot: InstanceSlot
    /** Set when Destroy has been called on this component. */
    var destroyed: bool

    constructor (slot: InstanceSlot)
      ensures this.slot == slot && !destroyed
    {
      this.slot := slot;
      destroyed := false;
    }

    /** Registers this component as the Instance of its type, or, when another
        live component already is, destroys this one and throws. */
    method Awake() returns (r: Outcome)
      modifies this, slot
      ensures slot.instance == InstanceAfterAwake(old(slot.LiveInstance()), this)
      ensures r.Registered? <==> !Rejects(old(slot.LiveInstance()), this)
      ensures r.Thrown? ==> r.message == "An Instance of " + slot.typeName + " already exists"
      ensures r.Registered? ==> slot.instance == this
      ensures destroyed == (old(destroyed) || Rejects(old(slot.LiveInstance()), this))
    {
      if slot.instance != null && !slot.instance.destroyed && slot.instance != this {
        destroyed := true;
        return Thrown("An Instance of " + slot.typeName + " already exists");
      }
      slot.instance := this;
      r := Registered;
    }
  }

  /** Two components of one type wake up, then the first wakes up again: the
      second is destroyed and throws, and the first stays the Instance. */
  method TwoComponentsWakeUp() returns (first: Outcome, second: Outcome, again: Outcome, secondDestroyed: bool)
    ensures first == Registered && again == Registered
    ensures second == Thrown("An Instance of GameSceneManager already exists")
    ensures secondDestroyed
  {
    var slot := new InstanceSlot("GameSceneManager");
    var a := new MonoBehaviourSingleton(slot);
    var b := new MonoBehaviourSingleton(slot);
    first := a.Awake();
    assert slot.LiveInstance() == a;
    second := b.Awake();
    assert slot.LiveInstance() == a;
    again := a.Awake();
    secondDestroyed := b.destroyed;
  }

  /** Once the registered component has been destroyed (by the engine, say,
      when its scene is unloaded), Unity's `!=` sees `Instance` as null, so
      the next component of the type registers in its place. */
  method RegistersAfterInstanceDestroyed() returns (r: Outcome, replaced: bool)
    ensures r == Registered && replaced
  {
    var slot := new InstanceSlot("GameSceneManager");
    var a := new MonoBehaviourSingleton(slot);
    var first := a.Awake();
    a.destroyed := true;
    var b := new MonoBehaviourSingleton(slot);
    r := b.Awake();
    replaced := slot.instance == b;
  }
}
