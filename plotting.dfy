/**
 * Google Maps tile providers for plotting (`get_google_map_provider`): the
 * tile URL template is assembled from a basemap code, optional additional
 * layers and an optional interface locale.
 */
module Plotting {
  import opened Wrappers

  /** `GoogleBasemap`: each member's value is the one-letter `lyrs` code. */
  datatype GoogleBasemap =
    | RoadsOnly | Standard | Terrain | AlternateRoadmap | SatelliteOnly | TerrainOnly | SatelliteWithLabels
  {
    function Value(): (code: string)
      ensures |code| == 1 && 'a' <= code[0] <= 'z'
    {
      match this
      case RoadsOnly => "h"
      case Standard => "m"
      case Terrain => "p"
      case AlternateRoadmap => "r"
      case SatelliteOnly => "s"
      case TerrainOnly => "t"
      case SatelliteWithLabels => "y"
    }

    /** The member name, as `layer.name`: a capitalised identifier. */
    function Name(): (n: string)
      ensures |n| >= 7 && 'A' <= n[0] <= 'Z'
    {
      match this
      case RoadsOnly => "RoadsOnly"
      case Standard => "Standard"
      case Terrain => "Terrain"
      case AlternateRoadmap => "AlternateRoadmap"
      case SatelliteOnly => "SatelliteOnly"
      case TerrainOnly => "TerrainOnly"
      case SatelliteWithLabels => "SatelliteWithLabels"
    }
  }

  /** `GoogleBasemap(code)`: the member whose value is code, if any. */
  function BasemapFromValue(code: string): (b: Option<GoogleBasemap>)
    ensures b.Some? ==> b.value.Value() == code
  {
    if code == "h" then Some(RoadsOnly)
    else if code == "m" then Some(Standard)
    else if code == "p" then Some(Terrain)
    else if code == "r" then Some(AlternateRoadmap)
    else if code == "s" then Some(SatelliteOnly)
    else if code == "t" then Some(TerrainOnly)
    else if code == "y" then Some(SatelliteWithLabels)
    else None
  }

  /** `GoogleBasemap[name]`: the member called name, if any. */
  function BasemapFromName(name: string): (b: Option<GoogleBasemap>)
    ensures b.Some? ==> b.value.Name() == name
  {
    if name == "RoadsOnly" then Some(RoadsOnly)
    else if name == "Standard" then Some(Standard)
    else if name == "Terrain" then Some(Terrain)
    else if name == "AlternateRoadmap" then Some(AlternateRoadmap)
    else if name == "SatelliteOnly" then Some(SatelliteOnly)
    else if name == "TerrainOnly" then Some(TerrainOnly)
    else if name == "SatelliteWithLabels" then Some(SatelliteWithLabels)
    else None
  }

  /** Every basemap is recovered from its member name, so the names are distinct. */
  lemma BasemapNameRoundTrip(b: GoogleBasemap)
    ensures BasemapFromName(b.Name()) == Some(b)
  {
  }

  /** Every basemap is recovered from its code, so the codes are distinct. */
  lemma BasemapValueRoundTrip(b: GoogleBasemap)
    ensures BasemapFromValue(b.Value()) == Some(b)
  {
  }

  /** `GoogleMapsAdditionalLayer`. */
  datatype GoogleMapsAdditionalLayer = Traffic | Transit | Bicycle
  {
    function Value(): (v: string)
      ensures |v| == 7 && forall k :: 0 <= k < |v| ==> 'a' <= v[k] <= 'z'
    {
      match this
      case Traffic => "traffic"
      case Transit => "transit"
      case Bicycle => "bicycle"
    }
  }

  /** `GoogleMapsAdditionalLayer(value)`: the member whose value is v, if any. */
  function AdditionalLayerFromValue(v: string): (a: Option<GoogleMapsAdditionalLayer>)
    ensures a.Some? ==> a.value.Value() == v
  {
    if v == "traffic" then Some(Traffic)
    else if v == "transit" then Some(Transit)
    else if v == "bicycle" then Some(Bicycle)
    else None
  }

  /** Every additional layer is recovered from its value, so the values are distinct. */
  lemma AdditionalLayerValueRoundTrip(a: GoogleMapsAdditionalLayer)
    ensures AdditionalLayerFromValue(a.Value()) == Some(a)
  {
  }

  /** The record `TileProvider(name=..., url=..., attribution=..., max_zoom=...)`. */
  datatype TileProvider = TileProvider(name: string, url: string, attribution: string, maxZoom: nat)

  const UrlPrefix: string := "http://mt.google.com/vt/lyrs="
  const UrlSuffix: string := "&x={x}&y={y}&z={z}"

  /** The values of the additional layers, in iteration order: comma-free
      seven-letter words, each of which reads back as its layer. */
  function LayerValues(layers: seq<GoogleMapsAdditionalLayer>): (vs: seq<string>)
    ensures |vs| == |layers|
    ensures forall k :: 0 <= k < |layers| ==> vs[k] == layers[k].Value()
    ensures forall k :: 0 <= k < |vs| ==> |vs[k]| == 7 && LayerText(vs[k]) && ',' !in vs[k]
    ensures forall k :: 0 <= k < |vs| ==> AdditionalLayerFromValue(vs[k]) == Some(layers[k])
  {
    LayerWords(layers);
    seq(|layers|, k requires 0 <= k < |layers| => layers[k].Value())
  }

  /** Each layer's value is a comma-free lower-case word that reads back as the layer. */
  lemma LayerWords(layers: seq<GoogleMapsAdditionalLayer>)
    ensures forall k :: 0 <= k < |layers| ==> LayerText(layers[k].Value()) && ',' !in layers[k].Value()
    ensures forall k :: 0 <= k < |layers| ==> AdditionalLayerFromValue(layers[k].Value()) == Some(layers[k])
  {
    forall k | 0 <= k < |layers|
      ensures LayerText(layers[k].Value()) && ',' !in layers[k].Value()
      ensures AdditionalLayerFromValue(layers[k].Value()) == Some(layers[k])
    {
      var v := layers[k].Value();
      AdditionalLayerValueRoundTrip(layers[k]);
      assert forall m :: 0 <= m < |v| ==> 'a' <= v[m] <= 'z';
    }
  }

  /** Python's `','.join(xs)`: joining lower-case words keeps the text to
      lower-case letters and commas. */
  function JoinComma(xs: seq<string>): (s: string)
    ensures (forall k :: 0 <= k < |xs| ==> LayerText(xs[k])) ==> LayerText(s)
  {
    if xs == [] then "" else if |xs| == 1 then xs[0] else xs[0] + "," + JoinComma(xs[1..])
  }

  /** n >= 1 words of width w join into n * (w + 1) - 1 characters. */
  lemma {:induction false} JoinCommaLength(xs: seq<string>, w: nat)
    requires xs != [] && forall k :: 0 <= k < |xs| ==> |xs[k]| == w
    ensures |JoinComma(xs)| == |xs| * (w + 1) - 1
  {
    if |xs| > 1 {
      JoinCommaLength(xs[1..], w);
    }
  }

  /** Python's `s.split(',')`. */
  function SplitComma(s: string): (parts: seq<string>)
    ensures |parts| >= 1
  {
    if s == [] then [""]
    else
      var rest := SplitComma(s[1..]);
      if s[0] == ',' then [""] + rest else [[s[0]] + rest[0]] + rest[1..]
  }

  /** `if additional_layers:` — None and the empty collection are falsy. */
  predicate HasLayers(additionalLayers: Option<seq<GoogleMapsAdditionalLayer>>)
  {
    additionalLayers.Some? && additionalLayers.value != []
  }

  /** `if locale:` — None and "" are falsy. */
  predicate HasLocale(locale: Option<string>)
  {
    locale.Some? && locale.value != ""
  }

  /** The `lyrs` parameter: the basemap code, then each additional layer after
      a comma.  It starts with the code, holds only lower-case letters and
      commas (so no '&'), and is the code alone exactly when additional_layers
      is falsy; otherwise each layer adds eight characters. */
  function LayerParam(layer: GoogleBasemap, additionalLayers: Option<seq<GoogleMapsAdditionalLayer>>): (p: string)
    ensures |p| >= 1 && p[..1] == layer.Value()
    ensures LayerText(p) && '&' !in p
    ensures !HasLayers(additionalLayers) <==> p == layer.Value()
    ensures HasLayers(additionalLayers) ==> |p| == 1 + 8 * |additionalLayers.value|
  {
    var code := layer.Value();
    if HasLayers(additionalLayers) then
      var vs := LayerValues(additionalLayers.value);
      CodeThenWords(code, vs);
      code + "," + JoinComma(vs)
    else code
  }

  /** A one-letter code, a comma and seven-letter words joined by commas:
      lower-case text of 1 + 8 * (number of words) characters led by the code. */
  lemma CodeThenWords(code: string, vs: seq<string>)
    requires |code| == 1 && LayerText(code)
    requires vs != [] && forall k :: 0 <= k < |vs| ==> |vs[k]| == 7 && LayerText(vs[k])
    ensures |code + "," + JoinComma(vs)| == 1 + 8 * |vs|
    ensures (code + "," + JoinComma(vs))[..1] == code
    ensures LayerText(code + "," + JoinComma(vs))
  {
    JoinCommaLength(vs, 7);
    var p := code + "," + JoinComma(vs);
    assert p[..1] == code;
  }

  /** `get_google_map_provider(layer, additional_layers, locale)`. */
  function GetGoogleMapProvider(layer: GoogleBasemap, additionalLayers: Option<seq<GoogleMapsAdditionalLayer>>,
                                locale: Option<string>): (p: TileProvider)
    ensures p.name == "Google." + layer.Name() && p.attribution == "Google" && p.maxZoom == 20
    ensures |p.url| >= |UrlPrefix| + 1 + |UrlSuffix|
    ensures p.url[..|UrlPrefix| + 1] == UrlPrefix + layer.Value()
    ensures p.url[|p.url| - |UrlSuffix|..] == UrlSuffix
  {
    var url := UrlPrefix + LayerParam(layer, additionalLayers)
               + (if HasLocale(locale) then "&hl=" + locale.value else "") + UrlSuffix;
    TileProvider("Google." + layer.Name(), url, "Google", 20)
  }
  /** `get_google_map_provider(layer)`: no additional layers and the default
      locale "en", so the URL asks for English labels. */
  function GetGoogleMapProviderDefaults(layer: GoogleBasemap): (p: TileProvider)
    ensures p.name == "Google." + layer.Name() && p.attribution == "Google" && p.maxZoom == 20
    ensures p.url == UrlPrefix + layer.Value() + "&hl=en" + UrlSuffix
  {
    GetGoogleMapProvider(layer, None, Some("en"))
  }


  /** Providers for different basemaps have different names, whatever the
      additional layers and locale. */
  lemma ProviderNamesDistinct(a: GoogleBasemap, b: GoogleBasemap,
                              layersA: Option<seq<GoogleMapsAdditionalLayer>>, layersB: Option<seq<GoogleMapsAdditionalLayer>>,
                              localeA: Option<string>, localeB: Option<string>)
    requires GetGoogleMapProvider(a, layersA, localeA).name == GetGoogleMapProvider(b, layersB, localeB).name
    ensures a == b
  {
    var na := "Google." + a.Name();
    var nb := "Google." + b.Name();
    assert na[7..] == a.Name() && nb[7..] == b.Name();
    BasemapNameRoundTrip(a);
    BasemapNameRoundTrip(b);
  }

  /** Text made only of lower-case letters and commas, as every `lyrs` value is. */
  predicate LayerText(s: string)
  {
    forall k :: 0 <= k < |s| ==> ('a' <= s[k] <= 'z' || s[k] == ',')
  }

  /** A comma-free piece followed by a comma splits off as one part. */
  lemma {:induction false} SplitCommaAfter(a: string, b: string)
    requires ',' !in a
    ensures SplitComma(a + "," + b) == [a] + SplitComma(b)
  {
    if a == [] {
      assert a + "," + b == [','] + b;
    } else {
      assert a == [a[0]] + a[1..];
      assert (a + "," + b)[1..] == a[1..] + "," + b;
      SplitCommaAfter(a[1..], b);
    }
  }

  /** A comma-free string is a single part. */
  lemma {:induction false} SplitCommaNone(a: string)
    requires ',' !in a
    ensures SplitComma(a) == [a]
  {
    if a != [] {
      assert a == [a[0]] + a[1..];
      SplitCommaNone(a[1..]);
    }
  }

  /** Splitting comma-joined comma-free words gives the words back. */
  lemma {:induction false} SplitJoinComma(xs: seq<string>)
    requires |xs| >= 1
    requires forall k :: 0 <= k < |xs| ==> ',' !in xs[k]
    ensures SplitComma(JoinComma(xs)) == xs
  {
    if |xs| == 1 {
      SplitCommaNone(xs[0]);
    } else {
      SplitCommaAfter(xs[0], JoinComma(xs[1..]));
      SplitJoinComma(xs[1..]);
    }
  }

  /** The `lyrs` parameter lists the basemap code and then each additional
      layer, in iteration order; with no additional layers it is the code alone. */
  lemma LayerParamLists(layer: GoogleBasemap, additionalLayers: Option<seq<GoogleMapsAdditionalLayer>>)
    ensures SplitComma(LayerParam(layer, additionalLayers))
            == [layer.Value()] + (if HasLayers(additionalLayers) then LayerValues(additionalLayers.value) else [])
  {
    var code := layer.Value();
    assert ',' !in code;
    if HasLayers(additionalLayers) {
      var vs := LayerValues(additionalLayers.value);
      SplitCommaAfter(code, JoinComma(vs));
      SplitJoinComma(vs);
    } else {
      SplitCommaNone(code);
    }
  }

  /** The text of s before its first '&' (all of s if there is none). */
  function TakeUntilAmp(s: string): (t: string)
    ensures |t| <= |s| && t == s[..|t|]
  {
    if s == [] || s[0] == '&' then [] else [s[0]] + TakeUntilAmp(s[1..])
  }

  /** Splitting at the first '&' of a + b, where a has none and b starts with one, gives a. */
  lemma {:induction false} TakeUntilAmpAt(a: string, b: string)
    requires '&' !in a && |b| >= 1 && b[0] == '&'
    ensures TakeUntilAmp(a + b) == a
  {
    if a != [] {
      assert a == [a[0]] + a[1..];
      assert (a + b)[1..] == a[1..] + b;
      TakeUntilAmpAt(a[1..], b);
    } else {
      assert a + b == b;
    }
  }

  /** Reads a tile URL back into its layer list and its locale, if it has the provider's shape. */
  function ParseProviderUrl(url: string): Option<(seq<string>, Option<string>)>
  {
    ParseBetween(url, UrlPrefix, UrlSuffix)
  }

  /** Reads "prefix" + layers + ["&hl=" + locale] + "suffix". */
  function ParseBetween(url: string, prefix: string, suffix: string): Option<(seq<string>, Option<string>)>
  {
    if |url| < |prefix| + |suffix| || url[..|prefix|] != prefix || url[|url| - |suffix|..] != suffix then None
    else ParseQuery(url[|prefix|..|url| - |suffix|])
  }

  /** Reads layers + ["&hl=" + locale]: the layers run up to the first '&'. */
  function ParseQuery(body: string): Option<(seq<string>, Option<string>)>
  {
    var param := TakeUntilAmp(body);
    var localePart := body[|param|..];
    if localePart == [] then Some((SplitComma(param), None))
    else if |localePart| > 4 && localePart[..4] == "&hl=" then Some((SplitComma(param), Some(localePart[4..])))
    else None
  }

  /** The provider URL encodes exactly the basemap, the additional layers in
      order, and the locale when it is truthy: reading it back recovers them. */
  lemma ProviderUrlRoundTrip(layer: GoogleBasemap, additionalLayers: Option<seq<GoogleMapsAdditionalLayer>>,
                             locale: Option<string>)
    ensures ParseProviderUrl(GetGoogleMapProvider(layer, additionalLayers, locale).url)
            == Some(([layer.Value()] + (if HasLayers(additionalLayers) then LayerValues(additionalLayers.value) else []),
                     if HasLocale(locale) then Some(locale.value) else None))
  {
    var param := LayerParam(layer, additionalLayers);
    LayerParamLists(layer, additionalLayers);
    if HasLocale(locale) {
      var localePart := "&hl=" + locale.value;
      assert localePart[..4] == "&hl=" && localePart[4..] == locale.value;
      ParseAssembled(param, localePart);
    } else {
      ParseAssembled(param, "");
    }
  }

  /** Parsing a URL assembled from a layer parameter without '&' and an empty or "&hl=..." part. */
  lemma ParseAssembled(param: string, localePart: string)
    requires '&' !in param
    requires localePart == [] || (|localePart| > 4 && localePart[..4] == "&hl=")
    ensures ParseProviderUrl(UrlPrefix + param + localePart + UrlSuffix)
            == Some((SplitComma(param), if localePart == [] then None else Some(localePart[4..])))
  {
    SeqAssoc(UrlPrefix, param, localePart, UrlSuffix);
    ParseBetweenAssembled(UrlPrefix, param + localePart, UrlSuffix);
    ParseQueryAssembled(param, localePart);
  }

  /** Regrouping a four-part concatenation. */
  lemma SeqAssoc(a: string, b: string, c: string, d: string)
    ensures a + b + c + d == a + (b + c) + d
  {
  }

  /** Parsing reads back the text between prefix and suffix. */
  lemma ParseBetweenAssembled(prefix: string, body: string, suffix: string)
    ensures ParseBetween(prefix + body + suffix, prefix, suffix) == ParseQuery(body)
  {
    ConcatSlices(prefix, body, suffix);
  }

  /** Reading the query part: the layer parameter runs up to the first '&'. */
  lemma ParseQueryAssembled(param: string, localePart: string)
    requires '&' !in param
    requires localePart == [] || (|localePart| > 4 && localePart[..4] == "&hl=")
    ensures ParseQuery(param + localePart)
            == Some((SplitComma(param), if localePart == [] then None else Some(localePart[4..])))
  {
    if localePart == [] {
      assert param + localePart == param;
      TakeUntilAmpEnd(param);
    } else {
      TakeUntilAmpAt(param, localePart);
      assert (param + localePart)[|param|..] == localePart;
    }
  }

  /** Without any '&', the whole string is taken. */
  lemma {:induction false} TakeUntilAmpEnd(a: string)
    requires '&' !in a
    ensures TakeUntilAmp(a) == a
  {
    if a != [] {
      assert a == [a[0]] + a[1..];
      TakeUntilAmpEnd(a[1..]);
    }
  }

  /** Whether t occurs in s at position k. */
  predicate OccursAt(s: string, t: string, k: int)
  {
    0 <= k && k + |t| <= |s| && s[k..k + |t|] == t
  }

  /** Whether t occurs in s. */
  predicate Contains(s: string, t: string)
  {
    exists k :: 0 <= k <= |s| && OccursAt(s, t, k)
  }

  /** The fixed text around the layer parameter. */
  lemma UrlConstants()
    ensures '&' !in UrlPrefix
    ensures 'h' !in UrlSuffix
    ensures |UrlSuffix| == 18 && UrlSuffix[0] == '&' && UrlSuffix[1] == 'x'
  {
    assert UrlPrefix == "http://mt.google.com/vt/lyrs=";
    assert UrlSuffix == "&x={x}&y={y}&z={z}";
  }

  /** The three parts of a + m + c are found again by slicing. */
  lemma ConcatSlices(a: string, m: string, c: string)
    ensures var s := a + m + c;
            s[..|a|] == a && s[|s| - |c|..] == c && s[|a|..|s| - |c|] == m
  {
    var s := a + m + c;
    assert s[..|a|] == a;
    assert s[|s| - |c|..] == c;
    assert s[|a|..|s| - |c|] == m;
  }

  /** "&hl=" appears in the URL exactly when the locale is truthy. */
  lemma LocaleInUrl(layer: GoogleBasemap, additionalLayers: Option<seq<GoogleMapsAdditionalLayer>>,
                    locale: Option<string>)
    ensures Contains(GetGoogleMapProvider(layer, additionalLayers, locale).url, "&hl=") <==> HasLocale(locale)
  {
    var param := LayerParam(layer, additionalLayers);
    var localePart := if HasLocale(locale) then "&hl=" + locale.value else "";
    UrlConstants();
    NoAmpConcat(UrlPrefix, param);
    MarkerIff(UrlPrefix + param, localePart, UrlSuffix);
  }

  /** Joining two '&'-free texts gives an '&'-free text. */
  lemma NoAmpConcat(a: string, b: string)
    requires '&' !in a && '&' !in b
    ensures '&' !in a + b
  {
  }

  /** With the only '&' of the head and tail unable to start the marker, the
      marker is present exactly when the locale part is. */
  lemma MarkerIff(head: string, localePart: string, tail: string)
    requires '&' !in head && 'h' !in tail
    requires localePart == "" || (|localePart| >= 4 && localePart[..4] == "&hl=")
    ensures Contains(head + localePart + tail, "&hl=") <==> localePart != ""
  {
    if localePart == "" {
      assert head + localePart + tail == head + tail;
      NoLocaleMarker(head, tail);
    } else {
      var v := localePart[4..];
      assert localePart == "&hl=" + v;
      MarkerPresent(head, v, tail);
    }
  }


  /** The marker written in front of a value is found again. */
  lemma MarkerPresent(head: string, v: string, tail: string)
    ensures Contains(head + ("&hl=" + v) + tail, "&hl=")
  {
    var s := head + ("&hl=" + v) + tail;
    assert s[|head|..|head| + 4] == "&hl=";
    assert OccursAt(s, "&hl=", |head|);
  }

  /** Every '&' of the text lies in the tail, where no 'h' follows it. */
  lemma NoLocaleMarker(head: string, tail: string)
    requires '&' !in head && 'h' !in tail
    ensures !Contains(head + tail, "&hl=")
  {
    var s := head + tail;
    var marker := "&hl=";
    assert |marker| == 4 && marker[0] == '&' && marker[1] == 'h';
    forall k | 0 <= k <= |s|
      ensures !OccursAt(s, marker, k)
    {
    }
  }
}
