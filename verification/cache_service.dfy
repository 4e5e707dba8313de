/**
 `CacheService`: read-through caching of the breed list, the dog list and
 the dogs of one breed. The cache backend is a map from key to entry;
 `cache.get` reads `None` for a missing key. Values are opaque (Django query
 sets), and the query a miss runs is passed in as its value.
 */
module CacheService {
  import opened Text
  import opened Validation

  datatype Entry<V> = Entry(value: Option<V>, timeout: int)

  datatype Service<V> = Service(store: map<string, Entry<V>>, timeout: int)

  const DefaultTimeout := 60 * 60

  /** `CacheService()` over a given backend, with the default timeout. */
  function NewService<V>(store: map<string, Entry<V>>): (s: Service<V>)
    ensures s.timeout == 3600 && s.store == store
  {
    Service(store, DefaultTimeout)
  }

  /** `cache.get(key)`. */
  function Get<V>(store: map<string, Entry<V>>, key: string): Option<V> {
    if key in store then store[key].value else None
  }

  datatype Fetched<V> = Fetched(value: V, service: Service<V>)

  /** The pattern every getter follows: a hit returns the cached value and
      writes nothing; a miss stores the query under the key with the
      service's timeout and returns it. Other keys are never touched. */
  function GetOrPopulate<V>(svc: Service<V>, key: string, query: V): (r: Fetched<V>)
    ensures Get(svc.store, key).Some? ==> r == Fetched(Get(svc.store, key).value, svc)
    ensures Get(svc.store, key).None? ==>
      r.value == query && r.service.store == svc.store[key := Entry(Some(query), svc.timeout)]
    ensures r.service.timeout == svc.timeout
    ensures Get(r.service.store, key) == Some(r.value)
    ensures forall k :: k != key ==> (k in r.service.store <==> k in svc.store)
    ensures forall k :: k != key && k in svc.store ==> r.service.store[k] == svc.store[k]
  {
    match Get(svc.store, key)
    case Some(v) => Fetched(v, svc)
    case None => Fetched(query, svc.(store := svc.store[key := Entry(Some(query), svc.timeout)]))
  }

  /** A second identical call returns the same value and writes nothing, even
      if the query would now give something else. */
  lemma SecondCallHits<V>(svc: Service<V>, key: string, query: V, laterQuery: V)
    ensures var first := GetOrPopulate(svc, key, query);
      GetOrPopulate(first.service, key, laterQuery) == first
  {
  }

  const BreedListKey := "breed_list"
  const DogListKey := "dog_list"
  const DogsByBreedPrefix := "dogs_by_breed_"

  function DogsByBreedKey(breedId: int): (k: string)
    ensures StartsWith(k, DogsByBreedPrefix)
  {
    assert (DogsByBreedPrefix + IntToString(breedId))[..|DogsByBreedPrefix|] == DogsByBreedPrefix;
    DogsByBreedPrefix + IntToString(breedId)
  }

  /** Keys of different breeds differ, and none collides with the two list keys. */
  lemma DogsByBreedKeysDistinct(a: int, b: int)
    ensures a != b ==> DogsByBreedKey(a) != DogsByBreedKey(b)
    ensures DogsByBreedKey(a) != BreedListKey && DogsByBreedKey(a) != DogListKey
  {
    if a != b {
      IntToStringInjective(a, b);
      var ka := DogsByBreedKey(a);
      var kb := DogsByBreedKey(b);
      assert ka[|DogsByBreedPrefix|..] == IntToString(a);
      assert kb[|DogsByBreedPrefix|..] == IntToString(b);
    }
    assert DogsByBreedKey(a)[3] == 's';
  }

  /** `get_breeds_cache`; `allBreeds` is `Breed.objects.all()`. */
  function GetBreedsCache<V>(svc: Service<V>, allBreeds: V): (r: Fetched<V>)
    ensures Get(svc.store, BreedListKey).Some? ==> r == Fetched(Get(svc.store, BreedListKey).value, svc)
    ensures Get(svc.store, BreedListKey).None? ==>
      r.value == allBreeds && r.service.store == svc.store[BreedListKey := Entry(Some(allBreeds), svc.timeout)]
  {
    GetOrPopulate(svc, BreedListKey, allBreeds)
  }

  /** `get_dogs_by_breed_cache`; `breedDogs` is `Dog.objects.filter(breed_id=breedId)`. */
  function GetDogsByBreedCache<V>(svc: Service<V>, breedId: int, breedDogs: V): (r: Fetched<V>)
    ensures Get(svc.store, DogsByBreedKey(breedId)).Some? ==>
      r == Fetched(Get(svc.store, DogsByBreedKey(breedId)).value, svc)
    ensures Get(svc.store, DogsByBreedKey(breedId)).None? ==>
      r.value == breedDogs
      && r.service.store == svc.store[DogsByBreedKey(breedId) := Entry(Some(breedDogs), svc.timeout)]
  {
    GetOrPopulate(svc, DogsByBreedKey(breedId), breedDogs)
  }

  /** `get_dogs_cache`; `allDogs` is `Dog.objects.all()`. */
  function GetDogsCache<V>(svc: Service<V>, allDogs: V): (r: Fetched<V>)
    ensures Get(svc.store, DogListKey).Some? ==> r == Fetched(Get(svc.store, DogListKey).value, svc)
    ensures Get(svc.store, DogListKey).None? ==>
      r.value == allDogs && r.service.store == svc.store[DogListKey := Entry(Some(allDogs), svc.timeout)]
  {
    GetOrPopulate(svc, DogListKey, allDogs)
  }

  /** The getters do not disturb each other: after any one of them the other
      two keys read as before. */
  lemma GettersIndependent<V>(svc: Service<V>, breedId: int, q: V)
    ensures Get(GetBreedsCache(svc, q).service.store, DogListKey) == Get(svc.store, DogListKey)
    ensures Get(GetBreedsCache(svc, q).service.store, DogsByBreedKey(breedId)) == Get(svc.store, DogsByBreedKey(breedId))
    ensures Get(GetDogsCache(svc, q).service.store, BreedListKey) == Get(svc.store, BreedListKey)
    ensures Get(GetDogsCache(svc, q).service.store, DogsByBreedKey(breedId)) == Get(svc.store, DogsByBreedKey(breedId))
    ensures Get(GetDogsByBreedCache(svc, breedId, q).service.store, BreedListKey) == Get(svc.store, BreedListKey)
    ensures Get(GetDogsByBreedCache(svc, breedId, q).service.store, DogListKey) == Get(svc.store, DogListKey)
  {
    DogsByBreedKeysDistinct(breedId, breedId);
    assert BreedListKey != DogListKey;
  }
}
