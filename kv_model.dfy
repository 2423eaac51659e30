// The key-value model object of the EHS front end (js/models/model.js). Its
// store is a plain object literal, so a key that is not its own is looked up
// on the prototype, and assigning to '__proto__' replaces the prototype.

module KeyValueModel {
  import opened JsText
  import opened JsValue

  /** The prototype of the store object: `Object.prototype` at first, an
    * object assigned through '__proto__' (whose own prototype is
    * `Object.prototype`), or `null`. */
  datatype Proto = ObjectPrototype | ObjProto(fields: map<string, Value>) | NullProto

  /** What `this.data[key]` yields: a value, or a member of
    * `Object.prototype` (one of its methods, or the prototype itself for
    * '__proto__'). */
  datatype Member = Own(value: Value) | Builtin(name: string)

  /** A key found on `Object.prototype`, otherwise `undefined`. */
  function FromObjectPrototype(key: string): (m: Member)
    ensures m.Builtin? <==> PrototypeMember(key)
    ensures m.Builtin? ==> m.name == key
    ensures m.Own? ==> m.value == Undefined
  {
    if PrototypeMember(key) then Builtin(key) else Own(Undefined)
  }

  class Model {
    var data: map<string, Value>
    var proto: Proto

    /** A fresh model holds no keys of its own; its store is `{}`. */
    constructor ()
      ensures data == map[] && proto == ObjectPrototype
    {
      data := map[];
      proto := ObjectPrototype;
    }

    /** `get(key)`: an own key gives its value; any other key is looked up
      * along the prototype chain, ending in `undefined`. */
    function Get(key: string): (m: Member)
      reads this
      ensures key in data ==> m == Own(data[key])
      ensures key !in data && proto.NullProto? ==> m == Own(Undefined)
      ensures key !in data && proto.ObjectPrototype? ==> m == FromObjectPrototype(key)
      ensures key !in data && proto.ObjProto? ==>
        m == if key in proto.fields then Own(proto.fields[key])
             else if key == "__proto__" then Own(Obj(proto.fields))
             else FromObjectPrototype(key)
      ensures m.Builtin? ==> key !in data && !proto.NullProto? && PrototypeMember(key)
    {
      if key in data then Own(data[key])
      else
        match proto
        case NullProto => Own(Undefined)
        case ObjectPrototype => FromObjectPrototype(key)
        case ObjProto(f) =>
          if key in f then Own(f[key])
          else if key == "__proto__" then Own(Obj(f))
          else FromObjectPrototype(key)
    }

    /** Whether `data[key] = value` reaches the inherited '__proto__'
      * setter instead of creating an own key. */
    function SetsPrototype(key: string): bool
      reads this
    {
      key == "__proto__" && key !in data && !proto.NullProto? &&
      !(proto.ObjProto? && key in proto.fields)
    }

    /** `set(key, value)`: the key gets its own value, unless it is
      * '__proto__' and the setter inherited from `Object.prototype` runs:
      * an object or `null` becomes the new prototype, anything else is
      * ignored. */
    method Set(key: string, value: Value)
      modifies this
      ensures old(SetsPrototype(key)) ==> data == old(data)
      ensures old(SetsPrototype(key)) ==>
        proto == (match value case Obj(f) => ObjProto(f) case Null => NullProto case _ => old(proto))
      ensures !old(SetsPrototype(key)) ==> data == old(data)[key := value] && proto == old(proto)
      ensures !old(SetsPrototype(key)) ==> Get(key) == Own(value)
      ensures !old(SetsPrototype(key)) ==> forall k :: k != key ==> Get(k) == old(Get(k))
    {
      if SetsPrototype(key) {
        match value
        case Obj(f) => proto := ObjProto(f);
        case Null => proto := NullProto;
        case _ =>
      } else {
        data := data[key := value];
      }
    }
  }

  /** A fresh model answers `get('toString')` with the inherited method and
    * an ordinary unknown key with `undefined`. */
  method FreshModelInherits() returns (m: Model)
    ensures m.Get("toString") == Builtin("toString")
    ensures m.Get("incidents") == Own(Undefined)
  {
    m := new Model();
  }

  /** `set('__proto__', obj)` stores no key: `get('__proto__')` returns the
    * object and its keys show through `get`. */
  method ProtoAssignment(f: map<string, Value>, k: string) returns (m: Model)
    requires k != "__proto__" && k in f
    ensures "__proto__" !in m.data
    ensures m.Get("__proto__") == Own(if "__proto__" in f then f["__proto__"] else Obj(f))
    ensures m.Get(k) == Own(f[k])
  {
    m := new Model();
    m.Set("__proto__", Obj(f));
  }

  /** Setting any key but '__proto__' and reading it back gives the value,
    * inherited method names included. */
  method SetThenGet(key: string, value: Value) returns (v: Member)
    requires key != "__proto__"
    ensures v == Own(value)
  {
    var m := new Model();
    m.Set(key, value);
    v := m.Get(key);
  }
}
