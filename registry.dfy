/**
 * The pool registry and the height poller: `Pools.UnmarshalJSON`'s swap of
 * each entry's fields (Bot.go:217-236), `getPools` around it
 * (Bot.go:238-265), `getPoolHeight` (Bot.go:176-214) with the download
 * given as a parameter, and `getHeights` (Bot.go:162-174).
 */
module Registry {
  import opened Wrappers
  import opened GoInt
  import opened Stats

  /** Go's `Pool`: two strings, updated in place through a `*Pool`. */
  class Pool {
    var url: string
    var api: string

    constructor (url: string, api: string)
      ensures this.url == url && this.api == api
    {
      this.url := url;
      this.api := api;
    }
  }

  /** No two keys share one `*Pool`, as for the objects `json.Unmarshal` allocates. */
  predicate Distinct(pools: map<string, Pool>)
  {
    forall k, k' :: k in pools && k' in pools && k != k' ==> pools[k] != pools[k']
  }

  /** Every pool's `Url` is its own key, the shape the swap produces. */
  ghost predicate Normalized(pools: map<string, Pool>)
    reads pools.Values
  {
    forall k :: k in pools ==> pools[k].url == k
  }

  /** Go's `Pools`, the map that `UnmarshalJSON` fills through its pointer receiver. */
  class Pools {
    var entries: map<string, Pool>

    constructor ()
      ensures entries == map[]
    {
      entries := map[];
    }

    /**
     * `UnmarshalJSON` (Bot.go:217-236), from the outcome of
     * `json.Unmarshal` on: `None` is a parse error, returned with the map
     * untouched; otherwise every parsed pool gets its `Url` moved to `Api`
     * and its key as `Url`, and is stored under its key.
     */
    method UnmarshalJSON(parsed: Option<map<string, Pool>>) returns (ok: bool)
      requires parsed.Some? ==> Distinct(parsed.value)
      modifies this, if parsed.Some? then parsed.value.Values else {}
      ensures ok == parsed.Some?
      ensures !ok ==> entries == old(entries)
      ensures ok ==> entries.Keys == old(entries).Keys + parsed.value.Keys
      ensures ok ==> forall k :: k in parsed.value ==>
        && entries[k] == parsed.value[k]
        && entries[k].url == k
        && entries[k].api == old(parsed.value[k].url)
      ensures ok ==> forall k :: k in old(entries) && k !in parsed.value ==>
        entries[k] == old(entries)[k]
    {
      if parsed.None? {
        return false;
      }
      var transient := parsed.value;
      var rest := transient.Keys;
      while rest != {}
        invariant rest <= transient.Keys
        invariant entries.Keys == old(entries).Keys + (transient.Keys - rest)
        invariant forall k :: k in transient && k !in rest ==>
          && entries[k] == transient[k]
          && transient[k].url == k
          && transient[k].api == old(transient[k].url)
        invariant forall k :: k in rest ==> transient[k].url == old(transient[k].url)
        invariant forall k :: k in old(entries) && k !in transient ==>
          entries[k] == old(entries)[k]
        decreases rest
      {
        var k :| k in rest;
        var v := transient[k];
        v.api := v.url;
        v.url := k;
        entries := entries[k := v];
        rest := rest - {k};
      }
      return true;
    }
  }

  /**
   * `getPools` (Bot.go:238-265) after the download: a fresh map filled by
   * `UnmarshalJSON`. `parsed` is `None` when the download, reading the body
   * or `json.Unmarshal` failed; the map is then returned empty.
   */
  method GetPools(parsed: Option<map<string, Pool>>) returns (pools: Pools, ok: bool)
    requires parsed.Some? ==> Distinct(parsed.value)
    modifies if parsed.Some? then parsed.value.Values else {}
    ensures fresh(pools)
    ensures ok == parsed.Some?
    ensures !ok ==> pools.entries == map[]
    ensures ok ==> pools.entries == parsed.value && Normalized(pools.entries)
    ensures ok ==> forall k :: k in parsed.value ==> parsed.value[k].api == old(parsed.value[k].url)
  {
    pools := new Pools();
    ok := pools.UnmarshalJSON(parsed);
  }

  /**
   * `getPoolHeight` (Bot.go:176-214): downloads `apiURL + "stats"` and
   * parses the body. `download` stands for the HTTP GET and the reading of
   * the body; `None` is a failure of either.
   */
  function GetPoolHeight(apiURL: string, download: string -> Option<string>): (r: Result<Int64, HeightError>)
    ensures r == Err(DownloadFailed) <==> download(apiURL + "stats").None?
    ensures download(apiURL + "stats").Some? ==> r == ParseHeight(download(apiURL + "stats").value)
  {
    match download(apiURL + "stats")
    case None => Err(DownloadFailed)
    case Some(body) => ParseHeight(body)
  }

  /** Polling `pool` through its `Api` gives `height`. */
  ghost predicate PolledOk(pool: Pool, download: string -> Option<string>, height: int)
    reads pool
  {
    GetPoolHeight(pool.api, download) == Ok(height)
  }

  /**
   * `getHeights` (Bot.go:162-174): polls every pool through its `Api` and
   * stores each successful height under the pool's `Url`. Every key of the
   * result is the `Url` of a pool whose poll gave that height, and every
   * successful pool's `Url` is a key. On a normalised registry the result
   * is keyed by the registry's own keys: a pool is present exactly when
   * its poll succeeded, with the height it returned; failed pools are
   * absent.
   */
  method GetHeights(pools: map<string, Pool>, download: string -> Option<string>)
    returns (heights: map<string, Int64>)
    ensures forall u :: u in heights ==>
      exists k :: k in pools && pools[k].url == u && PolledOk(pools[k], download, heights[u])
    ensures forall k :: k in pools && GetPoolHeight(pools[k].api, download).Ok? ==>
      pools[k].url in heights
    ensures Normalized(pools) ==> heights.Keys <= pools.Keys
    ensures Normalized(pools) ==> forall k :: k in pools ==>
      (k in heights <==> GetPoolHeight(pools[k].api, download).Ok?)
    ensures Normalized(pools) ==> forall k :: k in heights ==>
      GetPoolHeight(pools[k].api, download) == Ok(heights[k])
  {
    heights := map[];
    var rest := pools.Keys;
    while rest != {}
      invariant rest <= pools.Keys
      invariant forall u :: u in heights ==>
        exists k :: k in pools && k !in rest && pools[k].url == u && PolledOk(pools[k], download, heights[u])
      invariant forall k :: k in pools && k !in rest && GetPoolHeight(pools[k].api, download).Ok? ==>
        pools[k].url in heights
      decreases rest
    {
      var k :| k in rest;
      var v := pools[k];
      var height := GetPoolHeight(v.api, download);
      if height.Ok? {
        heights := heights[v.url := height.value];
      }
      rest := rest - {k};
    }
  }
}
