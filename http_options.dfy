/** `HTTPRequest.Options` and the ordered, name-unique header collection
    (Alamofire's `HTTPHeaders`) it carries. Header names compare without
    regard to ASCII letter case, as `HTTPHeaders` does. */
module HTTPOptions {

  import opened Wrappers

  datatype Header = Header(name: string, value: string)

  function LowerChar(c: char): (l: char)
    ensures !('A' <= l <= 'Z')
    ensures !('A' <= c <= 'Z') ==> l == c
  {
    if 'A' <= c <= 'Z' then (c as int + 32) as char else c
  }

  /** ASCII lower-casing, the folding under which header names compare. */
  function LowerASCII(s: string): (t: string)
    ensures |t| == |s|
  {
    seq(|s|, i requires 0 <= i < |s| => LowerChar(s[i]))
  }

  predicate SameName(a: string, b: string)
  {
    LowerASCII(a) == LowerASCII(b)
  }

  /** Names whose first letters differ after folding are different names. */
  lemma DifferentInitials(a: string, b: string)
    requires |a| > 0 && |b| > 0 && LowerChar(a[0]) != LowerChar(b[0])
    ensures !SameName(a, b)
  {
    assert LowerASCII(a)[0] != LowerASCII(b)[0];
  }

  /** No two headers share a name. */
  predicate UniqueNames(h: seq<Header>)
  {
    forall i, j :: 0 <= i < j < |h| ==> !SameName(h[i].name, h[j].name)
  }

  predicate HasName(h: seq<Header>, name: string)
  {
    exists i :: 0 <= i < |h| && SameName(h[i].name, name)
  }

  lemma HasNameCons(h: seq<Header>, name: string)
    requires h != []
    ensures HasName(h, name) <==> SameName(h[0].name, name) || HasName(h[1..], name)
  {
    if HasName(h, name) {
      var i :| 0 <= i < |h| && SameName(h[i].name, name);
      if i > 0 { assert h[1..][i - 1] == h[i]; }
    }
    if HasName(h[1..], name) {
      var i :| 0 <= i < |h[1..]| && SameName(h[1..][i].name, name);
      assert h[i + 1] == h[1..][i];
    }
  }

  lemma UniqueCons(x: Header, t: seq<Header>)
    ensures UniqueNames([x] + t) <==> UniqueNames(t) && !HasName(t, x.name)
  {
    var h := [x] + t;
    assert h[1..] == t;
    if UniqueNames(h) {
      forall i, j | 0 <= i < j < |t| ensures !SameName(t[i].name, t[j].name) {
        assert t[i] == h[i + 1] && t[j] == h[j + 1];
      }
      forall j | 0 <= j < |t| ensures !SameName(t[j].name, x.name) {
        assert h[0] == x && h[j + 1] == t[j];
      }
    }
    if UniqueNames(t) && !HasName(t, x.name) {
      forall i, j | 0 <= i < j < |h| ensures !SameName(h[i].name, h[j].name) {
        assert h[j] == t[j - 1];
        if i > 0 { assert h[i] == t[i - 1]; }
      }
    }
  }

  /** The value stored under `name`, if any (the `HTTPHeaders` subscript get). */
  function Lookup(h: seq<Header>, name: string): (v: Option<string>)
    ensures v.Some? <==> HasName(h, name)
  {
    if h == [] then None
    else
      HasNameCons(h, name);
      if SameName(h[0].name, name) then Some(h[0].value) else Lookup(h[1..], name)
  }

  /** `HTTPHeaders.update`, behind the subscript set and the dictionary
      literal: replace the header with the same name in place, or append. */
  function Update(h: seq<Header>, header: Header): (r: seq<Header>)
    ensures HasName(r, header.name)
    ensures |r| == if HasName(h, header.name) then |h| else |h| + 1
    ensures forall i :: 0 <= i < |h| ==> SameName(r[i].name, h[i].name)
  {
    if h == [] then
      assert [header][0] == header;
      [header]
    else
      HasNameCons(h, header.name);
      if SameName(h[0].name, header.name) then
        var r := [header] + h[1..];
        assert r[0] == header;
        r
      else
        var r := [h[0]] + Update(h[1..], header);
        HasNameCons(r, header.name);
        assert r[1..] == Update(h[1..], header);
        r
  }

  /** After an update the name maps to the new value. */
  lemma {:induction false} UpdateLookupSame(h: seq<Header>, header: Header)
    ensures Lookup(Update(h, header), header.name) == Some(header.value)
  {
    if h != [] && !SameName(h[0].name, header.name) {
      UpdateLookupSame(h[1..], header);
      assert ([h[0]] + Update(h[1..], header))[1..] == Update(h[1..], header);
    }
  }

  /** An update leaves the value of every other name as it was. */
  lemma {:induction false} UpdateLookupOther(h: seq<Header>, header: Header, name: string)
    requires !SameName(name, header.name)
    ensures Lookup(Update(h, header), name) == Lookup(h, name)
  {
    if h == [] {
      assert Update(h, header) == [header];
      assert ([header] + [])[1..] == [];
    } else if SameName(h[0].name, header.name) {
      assert ([header] + h[1..])[1..] == h[1..];
    } else {
      UpdateLookupOther(h[1..], header, name);
      assert ([h[0]] + Update(h[1..], header))[1..] == Update(h[1..], header);
    }
  }

  /** The names after an update are the old names and the updated one. */
  lemma {:induction false} UpdateNames(h: seq<Header>, header: Header, name: string)
    ensures HasName(Update(h, header), name) <==> HasName(h, name) || SameName(header.name, name)
  {
    var r := Update(h, header);
    if h == [] {
      HasNameCons(r, name);
      assert r[1..] == [];
    } else {
      HasNameCons(h, name);
      HasNameCons(r, name);
      if SameName(h[0].name, header.name) {
        assert r[1..] == h[1..];
      } else {
        UpdateNames(h[1..], header, name);
        assert r[1..] == Update(h[1..], header);
      }
    }
  }

  /** An update keeps header names unique. */
  lemma {:induction false} UpdateUnique(h: seq<Header>, header: Header)
    requires UniqueNames(h)
    ensures UniqueNames(Update(h, header))
  {
    if h == [] {
      UniqueCons(header, []);
    } else {
      UniqueCons(h[0], h[1..]);
      assert [h[0]] + h[1..] == h;
      if SameName(h[0].name, header.name) {
        UniqueCons(header, h[1..]);
      } else {
        UpdateUnique(h[1..], header);
        UpdateNames(h[1..], header, h[0].name);
        UniqueCons(h[0], Update(h[1..], header));
      }
    }
  }

  /** An update with a name not yet present appends at the end. */
  lemma {:induction false} UpdateAppends(h: seq<Header>, header: Header)
    requires !HasName(h, header.name)
    ensures Update(h, header) == h + [header]
  {
    if h != [] {
      HasNameCons(h, header.name);
      UpdateAppends(h[1..], header);
      assert [h[0]] + (h[1..] + [header]) == h + [header];
    }
  }

  /** Alamofire's `ParameterEncoding` values the request code tells apart. */
  datatype Encoding = URLEncoding | JSONEncoding | CustomEncoding(id: string)

  /** `HTTPRequest.Options`; the timeout is a `TimeInterval` in seconds. */
  datatype Options = Options(activityVisible: bool, timeout: real, encoding: Encoding, httpHeaders: seq<Header>)

  /** The bundle lookups `Options` makes: `AppInfo.version` and
      `Bundle.main.preferredLocalizations`. */
  datatype Bundle = Bundle(version: string, preferredLocalizations: seq<string>)

  /** The `Language` header: the first preferred localization, or "en". */
  function LanguageOf(bundle: Bundle): (lang: string)
    ensures bundle.preferredLocalizations == [] ==> lang == "en"
    ensures bundle.preferredLocalizations != [] ==> lang == bundle.preferredLocalizations[0]
  {
    if |bundle.preferredLocalizations| > 0 then bundle.preferredLocalizations[0] else "en"
  }

  /** `Options.init(activityVisible:timeout:encoding:)`: the headers start
      as the literal `["Platform": "iOS", "Version": version]` and then get
      `Language` set. */
  function NewOptions(activityVisible: bool, timeout: real, encoding: Encoding, bundle: Bundle): (o: Options)
    ensures o.activityVisible == activityVisible && o.timeout == timeout && o.encoding == encoding
    ensures o.httpHeaders == [Header("Platform", "iOS"), Header("Version", bundle.version),
                              Header("Language", LanguageOf(bundle))]
    ensures UniqueNames(o.httpHeaders)
    ensures Lookup(o.httpHeaders, "Platform") == Some("iOS")
    ensures Lookup(o.httpHeaders, "Version") == Some(bundle.version)
    ensures Lookup(o.httpHeaders, "Language") == Some(LanguageOf(bundle))
  {
    var literal := Update(Update([], Header("Platform", "iOS")), Header("Version", bundle.version));
    var headers := Update(literal, Header("Language", LanguageOf(bundle)));
    DefaultHeaders(bundle);
    UpdateLookupSame(literal, Header("Language", LanguageOf(bundle)));
    Options(activityVisible, timeout, encoding, headers)
  }

  /** The three default header names are pairwise different, so each
      default header is appended in turn. */
  lemma DefaultHeaders(bundle: Bundle)
    ensures var literal := Update(Update([], Header("Platform", "iOS")), Header("Version", bundle.version));
      Update(literal, Header("Language", LanguageOf(bundle)))
      == [Header("Platform", "iOS"), Header("Version", bundle.version), Header("Language", LanguageOf(bundle))]
  {
    var p, v, l := Header("Platform", "iOS"), Header("Version", bundle.version), Header("Language", LanguageOf(bundle));
    DifferentInitials("Platform", "Version");
    DifferentInitials("Platform", "Language");
    DifferentInitials("Version", "Language");
    UpdateAppends([], p);
    assert [] + [p] == [p];
    HasNameCons([p], "Version");
    UpdateAppends([p], v);
    HasNameCons([p, v], "Language");
    HasNameCons([v], "Language");
    assert [p, v][1..] == [v] && [v][1..] == [];
    UpdateAppends([p, v], l);
  }

  /** `Options.default`: activity shown, 30 second timeout, URL encoding. */
  function Default(bundle: Bundle): (o: Options)
    ensures o.activityVisible && o.timeout == 30.0 && o.encoding == URLEncoding
  {
    NewOptions(true, 30.0, URLEncoding, bundle)
  }

  /** `Options.silence`: the default options without the activity indicator. */
  function Silence(bundle: Bundle): (o: Options)
    ensures !o.activityVisible
  {
    NewOptions(false, 30.0, URLEncoding, bundle)
  }

  /** `silence` differs from `default` in `activityVisible` only. */
  lemma SilenceIsQuietDefault(bundle: Bundle)
    ensures Silence(bundle) == Default(bundle).(activityVisible := false)
  {
  }
}
