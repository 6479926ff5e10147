/** `equals` and `hashCode` of `KnativeModel` and `ConfigMapModel`, which decide what
    a `HashSet` of models keeps.

    A Java object is its reference number and its class with the fields `equals`
    reads; two objects with the same reference number are the same object. */
module Identity {
  import opened Wrappers
  import opened Collections
  import opened Models

  datatype JavaObject =
    | ConfigMapObject(ref: nat, mountPath: Option<string>, cmName: Option<string>)
    | ModelObject(ref: nat, name: Option<string>)    // any other KnativeModel subclass
    | PlainObject(ref: nat)                          // an object that is no KnativeModel

  predicate IsKnativeModel(o: JavaObject) {
    !o.PlainObject?
  }

  function ModelName(o: JavaObject): Option<string>
    requires IsKnativeModel(o)
  {
    if o.ConfigMapObject? then o.cmName else o.name
  }

  /** `KnativeModel.equals`: the same reference is equal; an object that is no
      KnativeModel is not; otherwise the names are compared with `String.equals`,
      which throws when the receiver's name is null. */
  function KnativeModelEquals(self: JavaObject, o: JavaObject): (r: Result<bool>)
    requires IsKnativeModel(self)
    ensures r.Err? <==> self.ref != o.ref && IsKnativeModel(o) && ModelName(self).None?
    ensures r.Err? ==> r.error.kind == NullPointer
    ensures self.ref == o.ref ==> r == Ok(true)
    ensures self.ref != o.ref && !IsKnativeModel(o) ==> r == Ok(false)
    ensures self.ref != o.ref && IsKnativeModel(o) && ModelName(self).Some? ==>
      r == Ok(ModelName(self) == ModelName(o))
  {
    if self.ref == o.ref then Ok(true)
    else if !IsKnativeModel(o) then Ok(false)
    else match ModelName(self)
      case None => Err(Failure(NullPointer, "getName() is null"))
      case Some(n) => Ok(ModelName(o) == Some(n))
  }

  /** `ConfigMapModel.equals`: the same reference is equal; an object that is no
      ConfigMapModel is not; otherwise the mount paths are compared with
      `Objects.equals`, so two null mount paths are equal. */
  function ConfigMapEquals(self: JavaObject, o: JavaObject): (r: bool)
    requires self.ConfigMapObject?
    ensures !o.ConfigMapObject? && self.ref != o.ref ==> !r
    ensures o.ConfigMapObject? ==> (r <==> self.ref == o.ref || self.mountPath == o.mountPath)
  {
    self.ref == o.ref || (o.ConfigMapObject? && self.mountPath == o.mountPath)
  }

  /** Two's-complement wrap-around to 32 bits, as Java `int` arithmetic does. */
  function Wrap32(n: int): (r: int)
    ensures -0x8000_0000 <= r < 0x8000_0000
    ensures (r - n) % 0x1_0000_0000 == 0
  {
    var m := n % 0x1_0000_0000;
    if m >= 0x8000_0000 then m - 0x1_0000_0000 else m
  }

  /** `String.hashCode`: `h = 31 * h + c` over the characters, in `int` arithmetic. */
  function StringHash(s: string): (h: int)
    ensures -0x8000_0000 <= h < 0x8000_0000
    decreases |s|
  {
    if |s| == 0 then 0 else Wrap32(31 * StringHash(s[..|s| - 1]) + s[|s| - 1] as int)
  }

  /** `Objects.hash(x)` of one possibly-null string: `31 * 1 + hash(x)`, null hashing to 0. */
  function ObjectsHash(x: Option<string>): (h: int)
    ensures -0x8000_0000 <= h < 0x8000_0000
  {
    Wrap32(31 + match x case None => 0 case Some(s) => StringHash(s))
  }

  /** `hashCode` of either class: `Objects.hash` of the field `equals` compares. */
  function HashCode(o: JavaObject): (h: int)
    requires IsKnativeModel(o)
    ensures o.ConfigMapObject? ==> h == ObjectsHash(o.mountPath)
    ensures o.ModelObject? ==> h == ObjectsHash(o.name)
  {
    if o.ConfigMapObject? then ObjectsHash(o.mountPath) else ObjectsHash(o.name)
  }

  /** Equal config maps hash equally, given that one reference is one object. */
  lemma ConfigMapHashConsistent(a: JavaObject, b: JavaObject)
    requires a.ConfigMapObject? && b.ConfigMapObject? && (a.ref == b.ref ==> a == b)
    requires ConfigMapEquals(a, b)
    ensures HashCode(a) == HashCode(b)
  {
  }

  /** Config-map equality is reflexive and symmetric. */
  lemma ConfigMapEqualsReflexiveSymmetric(a: JavaObject, b: JavaObject)
    requires a.ConfigMapObject? && b.ConfigMapObject?
    ensures ConfigMapEquals(a, a)
    ensures ConfigMapEquals(a, b) == ConfigMapEquals(b, a)
  {
  }

  /** Distinct config-map objects are equal exactly when their mount paths are; name
      and everything else are ignored, so `ConfigMapKey` is the identity a `HashSet`
      of config maps uses. */
  lemma ConfigMapEqualsIsKey(a: JavaObject, b: JavaObject, x: ConfigMapModel, y: ConfigMapModel)
    requires a == ConfigMapObject(a.ref, x.mountPath, x.name)
    requires b == ConfigMapObject(b.ref, y.mountPath, y.name)
    requires a.ref != b.ref
    ensures ConfigMapEquals(a, b) <==> ConfigMapKey(x) == ConfigMapKey(y)
  {
  }

  /** Equal knative models hash equally, given that one reference is one object. */
  lemma KnativeModelHashConsistent(a: JavaObject, b: JavaObject)
    requires a.ModelObject? && b.ModelObject? && (a.ref == b.ref ==> a == b)
    requires KnativeModelEquals(a, b) == Ok(true)
    ensures HashCode(a) == HashCode(b)
  {
  }
}
