/**
 * The enrichment of suspect addresses: the translation of place names into
 * Chinese (_to_zh) and the lookup cache of geo_lookup. The lookup service is
 * a function passed in; the cache remembers its answer, a failure included,
 * so that each address is asked about at most once.
 */
module Geo {
  import opened Wrappers
  import opened Counting

  /** The translation table for place names. */
  const ZhMap: map<string, string> := map[
    "India" := "印度",
    "Maharashtra" := "马哈拉施特拉邦",
    "Mumbai" := "孟买",
    "United States" := "美国",
    "California" := "加利福尼亚州",
    "New York" := "纽约州",
    "China" := "中国",
    "Beijing" := "北京",
    "Shanghai" := "上海",
    "Shenzhen" := "深圳",
    "Guangzhou" := "广州",
    "Japan" := "日本",
    "Tokyo" := "东京",
    "Osaka" := "大阪",
    "South Korea" := "韩国",
    "Seoul" := "首尔",
    "Singapore" := "新加坡",
    "Hong Kong" := "香港",
    "Taipei" := "台北",
    "United Kingdom" := "英国",
    "England" := "英格兰",
    "France" := "法国",
    "Germany" := "德国",
    "Delhi" := "德里",
    "Bengaluru" := "班加罗尔",
    "Bangalore" := "班加罗尔",
    "Hyderabad" := "海得拉巴",
    "Chennai" := "金奈",
    "Karnataka" := "卡纳塔克邦"
  ]

  predicate IsLatinChar(c: char)
  {
    ('A' <= c <= 'Z') || ('a' <= c <= 'z') || c == ' ' || c == '.' || c == '-'
  }

  /** The full match of [A-Za-z .\-]+. */
  predicate IsLatinName(s: string)
  {
    |s| > 0 && forall k :: 0 <= k < |s| ==> IsLatinChar(s[k])
  }

  /** m.get(k, d) of a Python dict. */
  function Get(m: map<string, string>, k: string, d: string): (r: string)
    ensures k in m ==> r == m[k]
    ensures k !in m ==> r == d
  {
    if k in m then m[k] else d
  }

  /**
   * _to_zh of a field that may be absent: a name in the table is replaced by
   * its translation, and everything else (absent, empty, Latin or any other
   * name) comes back unchanged.
   */
  function ToZh(o: Option<string>): (r: Option<string>)
    ensures o.Some? && o.value in ZhMap ==> r == Some(ZhMap[o.value])
    ensures !(o.Some? && o.value in ZhMap) ==> r == o
  {
    if o.None? || o.value == "" then o
    else if o.value in ZhMap then Some(ZhMap[o.value])
    else if IsLatinName(o.value) then Some(Get(ZhMap, o.value, o.value))
    else o
  }

  /** What the kept fields of a successful answer become. */
  datatype Location = Location(country: Option<string>, region: Option<string>, city: Option<string>,
                               lat: Option<real>, lon: Option<real>)

  /** The decoded JSON answer of the lookup service; absent fields are None. */
  datatype Response = Response(status: Option<string>, country: Option<string>, regionName: Option<string>,
                               city: Option<string>, lat: Option<real>, lon: Option<real>)

  /**
   * What geo_lookup stores for an answer: None when the request failed (no
   * answer) or the status is not "success", otherwise the translated location.
   */
  function Resolve(answer: Option<Response>): (g: Option<Location>)
    ensures g.Some? <==> answer.Some? && answer.value.status == Some("success")
    ensures g.Some? ==> g.value.lat == answer.value.lat && g.value.lon == answer.value.lon
    ensures g.Some? ==> (g.value.country == ToZh(answer.value.country)
      && g.value.region == ToZh(answer.value.regionName) && g.value.city == ToZh(answer.value.city))
  {
    match answer
    case None => None
    case Some(a) =>
      if a.status == Some("success") then
        Some(Location(ToZh(a.country), ToZh(a.regionName), ToZh(a.city), a.lat, a.lon))
      else None
  }

  /** The value an address will have once looked up through a cache holding `entries`. */
  function Known(entries: map<string, Option<Location>>, fetch: string -> Option<Response>, ip: string): Option<Location>
  {
    if ip in entries then entries[ip] else Resolve(fetch(ip))
  }

  /** GEO_CACHE, with a record of the addresses the lookup service was asked about. */
  class GeoCache {
    var entries: map<string, Option<Location>>
    ghost var asked: seq<string>

    /** Exactly the asked addresses are cached, and none was asked twice. */
    ghost predicate Valid()
      reads this
    {
      (forall ip :: ip in entries <==> ip in asked) && Distinct(asked)
    }

    constructor ()
      ensures Valid() && entries == map[] && asked == []
    {
      entries := map[];
      asked := [];
    }

    /** geo_lookup(ip) with the lookup service `fetch`. */
    method Lookup(ip: string, fetch: string -> Option<Response>) returns (g: Option<Location>)
      requires Valid()
      modifies this
      ensures Valid()
      ensures g == Known(old(entries), fetch, ip)
      ensures entries == old(entries)[ip := g]
      ensures old(ip in entries) ==> asked == old(asked)
      ensures old(ip !in entries) ==> asked == old(asked) + [ip]
    {
      if ip in entries {
        g := entries[ip];
        return;
      }
      g := Resolve(fetch(ip));
      entries := entries[ip := g];
      asked := asked + [ip];
    }
  }
}
