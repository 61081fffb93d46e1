/**
 * AlUserPasswordCache: the user/password credentials of the AL Language
 * extension held in memory, keyed by AlUserPasswordCacheKey (equal when
 * their key texts are equal), loaded from and saved to a JSON object whose
 * property names are the key texts. The JSON text itself and its
 * encryption are not part of this model: Refresh reads the parsed
 * properties and Save yields the object it writes.
 */
module PasswordCaches {
  import opened Wrappers
  import opened Credentials

  /** A property value of the stored JSON object: an object with optional user name and password, or anything else. */
  datatype JsonValue = JsonObject(userName: Option<string>, password: Option<string>) | JsonOther

  /** One property of the stored JSON object. */
  datatype Property = Property(name: string, value: JsonValue)

  /** The dictionary as kept by the cache: the key object and the credential of every key text. */
  predicate Consistent(keys: map<string, CacheKey>, creds: map<string, Credential>)
  {
    keys.Keys == creds.Keys && forall s :: s in keys ==> keys[s].key == s
  }

  /**
   * The Refresh loop after the dictionary is cleared, from the state
   * (keys, creds), with parseKey the key's string constructor: properties
   * whose value is not an object are skipped; a name the constructor
   * rejects raises its exception and a key already present raises
   * ArgumentException, both leaving what was added so far.
   */
  function Load(parseKey: string -> Outcome<CacheKey>, keys: map<string, CacheKey>, creds: map<string, Credential>, props: seq<Property>)
    : (r: (map<string, CacheKey>, map<string, Credential>, Option<Exception>))
    requires Consistent(keys, creds)
    ensures Consistent(r.0, r.1)
    ensures keys.Keys <= r.0.Keys
    ensures r.2.Some? ==> r.2.value == ArgumentException || exists i :: 0 <= i < |props| && parseKey(props[i].name) == Fail(r.2.value)
    decreases |props|
  {
    if props == [] then (keys, creds, None)
    else
      var p := props[0];
      var tail := props[1..];
      assert forall i :: 0 <= i < |tail| ==> tail[i] == props[i + 1];
      match p.value
      case JsonOther => Load(parseKey, keys, creds, tail)
      case JsonObject(userName, password) =>
        match parseKey(p.name)
        case Fail(e) => (keys, creds, Some(e))
        case Ok(k) =>
          if k.key in keys then (keys, creds, Some(ArgumentException))
          else Load(parseKey, keys[k.key := k], creds[k.key := CredentialOf(userName, password)], tail)
  }

  /** A property whose value is not an object makes no difference, wherever it stands. */
  lemma {:induction false} LoadIgnoresOthers(parseKey: string -> Outcome<CacheKey>, keys: map<string, CacheKey>, creds: map<string, Credential>,
                                            a: seq<Property>, name: string, b: seq<Property>)
    requires Consistent(keys, creds)
    ensures Load(parseKey, keys, creds, a + [Property(name, JsonOther)] + b) == Load(parseKey, keys, creds, a + b)
    decreases |a|
  {
    var other := [Property(name, JsonOther)];
    if a == [] {
      assert a + other + b == other + b;
      assert a + b == b;
      assert (other + b)[0] == Property(name, JsonOther);
      assert (other + b)[1..] == b;
    } else {
      assert (a + other + b)[0] == (a + b)[0] == a[0];
      assert (a + other + b)[1..] == a[1..] + other + b;
      assert (a + b)[1..] == a[1..] + b;
      var p := a[0];
      match p.value
      case JsonOther =>
        LoadIgnoresOthers(parseKey, keys, creds, a[1..], name, b);
      case JsonObject(userName, password) =>
        match parseKey(p.name)
        case Fail(e) =>
        case Ok(k) =>
          if k.key !in keys {
            LoadIgnoresOthers(parseKey, keys[k.key := k], creds[k.key := CredentialOf(userName, password)], a[1..], name, b);
          }
    }
  }

  /** A key constructor that keeps the text it is given as the key. */
  ghost predicate KeepsKeyText(parseKey: string -> Outcome<CacheKey>)
  {
    forall s :: parseKey(s).Ok? ==> parseKey(s).value.key == s
  }

  /** The string constructor of AlUserPasswordCacheKey keeps the text. */
  lemma FromKeyStringKeepsText()
    ensures KeepsKeyText(FromKeyString)
  {
    forall s | FromKeyString(s).Ok?
      ensures FromKeyString(s).value.key == s
    {
    }
  }

  predicate DistinctNames(props: seq<Property>)
  {
    forall i, j :: 0 <= i < j < |props| ==> props[i].name != props[j].name
  }

  /**
   * Loading properties with distinct names, none present yet and all of
   * them keys, adds exactly the credentials they describe.
   */
  lemma {:induction false} LoadAdds(parseKey: string -> Outcome<CacheKey>, keys: map<string, CacheKey>, creds: map<string, Credential>, props: seq<Property>)
    requires KeepsKeyText(parseKey)
    requires Consistent(keys, creds)
    requires DistinctNames(props)
    requires forall i :: 0 <= i < |props| ==> props[i].name !in keys && parseKey(props[i].name).Ok?
    ensures Load(parseKey, keys, creds, props).2.None?
    ensures Load(parseKey, keys, creds, props).1 == creds + DescribedFront(props)
    decreases |props|
  {
    if props != [] {
      var p := props[0];
      var tail := props[1..];
      assert forall i :: 0 <= i < |tail| ==> tail[i] == props[i + 1];
      LoadStep(parseKey, keys, creds, props);
      if p.value.JsonOther? {
        LoadAdds(parseKey, keys, creds, tail);
      } else {
        var k := parseKey(p.name).value;
        var c := CredentialOf(p.value.userName, p.value.password);
        assert forall i :: 0 <= i < |tail| ==> tail[i].name != p.name;
        assert k.key == p.name;
        LoadAdds(parseKey, keys[p.name := k], creds[p.name := c], tail);
        assert p.name !in DescribedFront(tail);
        UpdateThenUnion(creds, DescribedFront(tail), p.name, c);
      }
    }
  }

  /** Adding an entry before a union with a map that lacks its key is adding it after. */
  lemma UpdateThenUnion(m: map<string, Credential>, d: map<string, Credential>, k: string, v: Credential)
    requires k !in d
    ensures m[k := v] + d == m + d[k := v]
  {
  }

  /** One step of Load on a first property whose name is a new key. */
  lemma LoadStep(parseKey: string -> Outcome<CacheKey>, keys: map<string, CacheKey>, creds: map<string, Credential>, props: seq<Property>)
    requires KeepsKeyText(parseKey)
    requires Consistent(keys, creds)
    requires props != [] && props[0].name !in keys && parseKey(props[0].name).Ok?
    ensures var p := props[0];
      props[0].value.JsonOther? ==> Load(parseKey, keys, creds, props) == Load(parseKey, keys, creds, props[1..])
    ensures var p := props[0];
      props[0].value.JsonObject? ==>
        var c := CredentialOf(p.value.userName, p.value.password);
        && Load(parseKey, keys, creds, props) == Load(parseKey, keys[p.name := parseKey(p.name).value], creds[p.name := c], props[1..])
        && DescribedFront(props) == DescribedFront(props[1..])[p.name := c]
    ensures props[0].value.JsonOther? ==> DescribedFront(props) == DescribedFront(props[1..])
  {
  }

  /** The credentials the object properties describe, by name (the first one wins for a repeated name). */
  function DescribedFront(props: seq<Property>): (m: map<string, Credential>)
    ensures forall s :: s in m ==> exists i :: 0 <= i < |props| && props[i].name == s
    decreases |props|
  {
    if props == [] then map[]
    else
      var rest := DescribedFront(props[1..]);
      assert forall i :: 0 <= i < |props[1..]| ==> props[1..][i] == props[i + 1];
      match props[0].value
      case JsonOther => rest
      case JsonObject(userName, password) => rest[props[0].name := CredentialOf(userName, password)]
  }

  class PasswordCache {
    /** The cache file (File.FullName). */
    const file: string
    /** The key object stored for each key text. */
    var keys: map<string, CacheKey>
    /** The credential stored for each key text. */
    var creds: map<string, Credential>

    predicate Valid()
      reads this
    {
      Consistent(keys, creds)
    }

    /** A cache on the file with nothing loaded yet. */
    constructor (file: string)
      ensures Valid() && this.file == file && keys == map[] && creds == map[]
    {
      this.file := file;
      keys := map[];
      creds := map[];
    }

    /** AlUserPasswordCache.Get: the credential of the key, compared by key text; null when absent. */
    function Get(key: CacheKey): (r: Option<Credential>)
      reads this
      ensures r.Some? <==> key.key in creds
      ensures r.Some? ==> r.value == creds[key.key]
    {
      if key.key in creds then Some(creds[key.key]) else None
    }

    /** AlUserPasswordCache.GetKeys: the key objects held, one per key text. */
    function GetKeys(): (r: set<CacheKey>)
      reads this
      requires Valid()
      ensures forall k :: k in r <==> k.key in keys && keys[k.key] == k
      ensures forall k :: k in r ==> Get(k).Some?
    {
      keys.Values
    }

    /**
     * AlUserPasswordCache.Set: the indexer stores the credential; a key
     * text already present keeps its original key object.
     */
    method Set(key: CacheKey, credential: Credential)
      requires Valid()
      modifies this
      ensures Valid()
      ensures keys == old(keys)[key.key := if key.key in old(keys) then old(keys)[key.key] else key]
      ensures creds == old(creds)[key.key := credential]
      ensures Get(key) == Some(credential)
      ensures forall k: CacheKey :: k.key != key.key ==> Get(k) == old(Get(k))
    {
      if key.key !in keys {
        keys := keys[key.key := key];
      }
      creds := creds[key.key := credential];
    }

    /** AlUserPasswordCache.Delete: true exactly when the key text was present; it is gone afterwards. */
    method Delete(key: CacheKey) returns (removed: bool)
      requires Valid()
      modifies this
      ensures Valid()
      ensures removed <==> old(Get(key)).Some?
      ensures keys == old(keys) - {key.key} && creds == old(creds) - {key.key}
      ensures Get(key).None?
      ensures forall k: CacheKey :: k.key != key.key ==> Get(k) == old(Get(k))
    {
      removed := key.key in keys;
      keys := keys - {key.key};
      creds := creds - {key.key};
    }

    /**
     * AlUserPasswordCache.Refresh: nothing happens when the file does not
     * exist; otherwise the dictionary is cleared and, when the file has
     * content, filled from its properties in order.
     */
    method Refresh(fileExists: bool, content: Option<seq<Property>>) returns (err: Option<Exception>)
      requires Valid()
      modifies this
      ensures Valid()
      ensures !fileExists ==> keys == old(keys) && creds == old(creds) && err.None?
      ensures fileExists && content.None? ==> keys == map[] && creds == map[] && err.None?
      ensures fileExists && content.Some? ==> (keys, creds, err) == Load(FromKeyString, map[], map[], content.value)
    {
      if !fileExists {
        return None;
      }
      keys := map[];
      creds := map[];
      if content.None? {
        return None;
      }
      var props := content.value;
      var i := 0;
      while i < |props|
        invariant 0 <= i <= |props|
        invariant Valid()
        invariant Load(FromKeyString, keys, creds, props[i..]) == Load(FromKeyString, map[], map[], props)
      {
        assert props[i..][1..] == props[i + 1..];
        var p := props[i];
        if p.value.JsonOther? {
          i := i + 1;
          continue;
        }
        var credential := CredentialOf(p.value.userName, p.value.password);
        var key := FromKeyString(p.name);
        if key.Fail? {
          return Some(key.error);
        }
        if key.value.key in keys {
          return Some(ArgumentException);
        }
        keys := keys[key.value.key := key.value];
        creds := creds[key.value.key := credential];
        i := i + 1;
      }
      return None;
    }

    /** AlUserPasswordCache.Save: the JSON object written, one {Username, Password} object per key text. */
    function Save(): (r: map<string, JsonValue>)
      reads this
      requires Valid()
      ensures r.Keys == keys.Keys
      ensures forall s :: s in r ==> r[s].JsonObject? && r[s].userName.Some? && r[s].password.Some?
    {
      map s | s in creds :: SavedObject(creds[s])
    }
  }

  /** AlUserPasswordCache.OpenFile: a new cache on the file, refreshed from it. */
  method OpenFile(file: string, fileExists: bool, content: Option<seq<Property>>) returns (c: PasswordCache, err: Option<Exception>)
    ensures fresh(c) && c.Valid() && c.file == file
    ensures !fileExists || content.None? ==> c.keys == map[] && c.creds == map[] && err.None?
    ensures fileExists && content.Some? ==> (c.keys, c.creds, err) == Load(FromKeyString, map[], map[], content.value)
  {
    c := new PasswordCache(file);
    err := c.Refresh(fileExists, content);
  }

  /** The stored object of a credential. */
  function SavedObject(c: Credential): JsonValue
  {
    JsonObject(Some(c.userName), Some(c.password))
  }

  /**
   * Loading properties that list the saved object of every credential once
   * each, in any order, with a key constructor that accepts every key text,
   * gives back the credentials.
   */
  lemma {:induction false} LoadSaved(parseKey: string -> Outcome<CacheKey>, creds: map<string, Credential>, props: seq<Property>)
    requires KeepsKeyText(parseKey)
    requires forall s :: s in creds ==> parseKey(s).Ok?
    requires DistinctNames(props)
    requires forall i :: 0 <= i < |props| ==> props[i].name in creds && props[i].value == SavedObject(creds[props[i].name])
    requires forall s :: s in creds ==> exists i :: 0 <= i < |props| && props[i].name == s
    ensures Load(parseKey, map[], map[], props).2.None?
    ensures Load(parseKey, map[], map[], props).1 == creds
  {
    LoadAdds(parseKey, map[], map[], props);
    DescribedSaved(creds, props);
    assert map[] + creds == creds;
  }

  /** Properties listing the saved object of every credential once each describe exactly those credentials. */
  lemma DescribedSaved(creds: map<string, Credential>, props: seq<Property>)
    requires DistinctNames(props)
    requires forall i :: 0 <= i < |props| ==> props[i].name in creds && props[i].value == SavedObject(creds[props[i].name])
    requires forall s :: s in creds ==> exists i :: 0 <= i < |props| && props[i].name == s
    ensures DescribedFront(props) == creds
  {
    var d := DescribedFront(props);
    DescribedFrontValues(props);
    forall s | s in creds
      ensures s in d && d[s] == creds[s]
    {
      var i :| 0 <= i < |props| && props[i].name == s;
      assert props[i].value == SavedObject(creds[s]);
      assert d[s] == CredentialOf(Some(creds[s].userName), Some(creds[s].password));
    }
    forall s | s in d
      ensures s in creds
    {
      var i :| 0 <= i < |props| && props[i].name == s;
    }
    MapsAgree(d, creds);
  }

  /** Two maps with the same keys and the same value at each key are equal. */
  lemma MapsAgree<K, V>(a: map<K, V>, b: map<K, V>)
    requires forall k :: k in a <==> k in b
    requires forall k :: k in a ==> a[k] == b[k]
    ensures a == b
  {
  }

  /**
   * Saving and then refreshing from what was saved gives back every
   * credential under the same key texts, whatever order the properties are
   * read in, when the string constructor accepts every key text.
   */
  lemma SaveRefreshRoundTrip(c: PasswordCache, props: seq<Property>)
    requires c.Valid()
    requires forall s :: s in c.keys ==> FromKeyString(s).Ok?
    requires DistinctNames(props)
    requires forall i :: 0 <= i < |props| ==> props[i].name in c.Save() && props[i].value == c.Save()[props[i].name]
    requires forall s :: s in c.Save() ==> exists i :: 0 <= i < |props| && props[i].name == s
    ensures Load(FromKeyString, map[], map[], props).2.None?
    ensures Load(FromKeyString, map[], map[], props).1 == c.creds
    ensures Load(FromKeyString, map[], map[], props).0.Keys == c.keys.Keys
  {
    var saved := c.Save();
    assert forall s :: s in saved ==> saved[s] == SavedObject(c.creds[s]);
    FromKeyStringKeepsText();
    LoadSaved(FromKeyString, c.creds, props);
  }

  /** Every property that is an object is described, with its own credential, when the names are distinct. */
  lemma {:induction false} DescribedFrontValues(props: seq<Property>)
    requires DistinctNames(props)
    ensures forall i :: 0 <= i < |props| && props[i].value.JsonObject? ==>
      props[i].name in DescribedFront(props)
      && DescribedFront(props)[props[i].name] == CredentialOf(props[i].value.userName, props[i].value.password)
    decreases |props|
  {
    if props != [] {
      var tail := props[1..];
      assert forall i :: 0 <= i < |tail| ==> tail[i] == props[i + 1];
      DescribedFrontValues(tail);
    }
  }

  // ---------------------------------------------------------------------
  // Extensions.GetUserPasswordCredential

  /**
   * The credential of the first cache, in sequence order, that holds the
   * key; later caches are not looked at, and nothing is found in an
   * empty sequence.
   */
  function FirstCredential(caches: seq<PasswordCache>, key: CacheKey): (r: Option<Credential>)
    reads caches
    ensures r.None? <==> forall i :: 0 <= i < |caches| ==> caches[i].Get(key).None?
    ensures r.Some? ==> exists i :: (0 <= i < |caches| && caches[i].Get(key) == r
      && forall j :: 0 <= j < i ==> caches[j].Get(key).None?)
  {
    if caches == [] then None
    else if caches[0].Get(key).Some? then caches[0].Get(key)
    else
      var r := FirstCredential(caches[1..], key);
      assert forall i :: 1 <= i < |caches| ==> caches[1..][i - 1] == caches[i];
      if r.Some? then
        var i :| 0 <= i < |caches[1..]| && caches[1..][i].Get(key) == r
          && forall j :: 0 <= j < i ==> caches[1..][j].Get(key).None?;
        assert caches[i + 1].Get(key) == r;
        r
      else r
  }

  /** The search stops at the first hit: caches after it make no difference. */
  lemma {:induction false} FirstCredentialStops(caches: seq<PasswordCache>, more: seq<PasswordCache>, key: CacheKey)
    requires FirstCredential(caches, key).Some?
    ensures FirstCredential(caches + more, key) == FirstCredential(caches, key)
    decreases |caches|
  {
    assert (caches + more)[0] == caches[0];
    if caches[0].Get(key).None? {
      assert (caches + more)[1..] == caches[1..] + more;
      FirstCredentialStops(caches[1..], more, key);
    }
  }
}
