/** The `api_url=` setters of lib/airwallex_ruby.rb and lib/bluesnap_ruby.rb,
    which make sure the stored base URL names the `https://` scheme. The
    Airwallex one converts its argument with `to_s` first; the BlueSnap one
    calls `include?` on the argument itself. */
module Config {
  import opened Text
  import opened Ruby

  const Https := "https://"
  const AirwallexDefaultUrl := Https + "sandbox.airwallex.com"
  const BluesnapDefaultUrl := Https + "sandbox.bluesnap.com"

  /** `AirwallexRuby.api_url = url`: the text of `url`, with `https://`
      put in front unless it already occurs somewhere in it. */
  function AirwallexApiUrl(url: Value): (r: string)
    ensures Contains(r, Https)
    ensures Contains(ToS(url), Https) ==> r == ToS(url)
    ensures !Contains(ToS(url), Https) ==> r == Https + ToS(url)
  {
    var t := ToS(url);
    if Contains(t, Https) then t
    else
      ContainsPrefix(Https, t);
      Https + t
  }

  /** Storing the stored value again changes nothing. */
  lemma AirwallexApiUrlIdempotent(url: Value)
    ensures AirwallexApiUrl(Str(AirwallexApiUrl(url))) == AirwallexApiUrl(url)
  {
  }

  /** `nil.to_s` is empty, so a `nil` URL is stored as the bare scheme. */
  lemma AirwallexNilUrl()
    ensures AirwallexApiUrl(Nil) == Https
  {
    assert !Contains("", Https);
  }

  /** The scheme only has to occur, not to lead: a URL that mentions it
      later is stored without a leading `https://`. */
  lemma AirwallexSchemeAnywhere(prefix: string, rest: string)
    ensures AirwallexApiUrl(Str(prefix + Https + rest)) == prefix + Https + rest
  {
    var s := prefix + Https + rest;
    assert s[|prefix|..|prefix| + |Https|] == Https;
    assert OccursAt(s, Https, |prefix|);
  }

  /** `BluesnapRuby.api_url = url`. A String is normalised like the
      Airwallex one. An array or a hash that includes `"https://"` (as an
      element or a key) is stored as it is; any other array or hash cannot
      be added to a String. Nothing else has `include?`. */
  function BluesnapApiUrl(url: Value): (r: Result<Value>)
    ensures url.Str? ==> r.Ok? && r.value.Str? && Contains(r.value.s, Https)
    ensures url.Str? && Contains(url.s, Https) ==> r == Ok(url)
    ensures url.Str? && !Contains(url.s, Https) ==> r == Ok(Str(Https + url.s))
    ensures (url.Nil? || url.Bool? || url.Int? || url.Sym?) ==> r == Raised(NoMethodError("include?"))
    ensures (url.Arr? || url.Hash?) ==> (r.Ok? ==> r == Ok(url)) && (r.Raised? ==> r.fault.TypeError?)
  {
    match url
    case Str(s) =>
      if Contains(s, Https) then Ok(url)
      else
        ContainsPrefix(Https, s);
        Ok(Str(Https + s))
    case Arr(items) =>
      if Str(Https) in items then Ok(url) else Raised(TypeError("no implicit conversion of Array into String"))
    case Hash(fs) =>
      if StrKey(Https) in KeysOf(fs) then Ok(url) else Raised(TypeError("no implicit conversion of Hash into String"))
    case _ => Raised(NoMethodError("include?"))
  }

  /** Setting the BlueSnap URL to what it stored changes nothing. */
  lemma BluesnapApiUrlIdempotent(url: string)
    ensures BluesnapApiUrl(BluesnapApiUrl(Str(url)).value) == BluesnapApiUrl(Str(url))
  {
  }

  /** On text the two setters agree. */
  lemma SettersAgreeOnText(url: string)
    ensures BluesnapApiUrl(Str(url)) == Ok(Str(AirwallexApiUrl(Str(url))))
  {
  }

  /** A URL that starts with the scheme is stored as it is, by either
      setter. */
  lemma SchemeKept(rest: string)
    ensures AirwallexApiUrl(Str(Https + rest)) == Https + rest
    ensures BluesnapApiUrl(Str(Https + rest)) == Ok(Str(Https + rest))
  {
    ContainsPrefix(Https, rest);
  }

  /** Both defaults already name the scheme, so storing them again keeps
      them. */
  lemma DefaultsAreNormal()
    ensures AirwallexApiUrl(Str(AirwallexDefaultUrl)) == AirwallexDefaultUrl
    ensures BluesnapApiUrl(Str(BluesnapDefaultUrl)) == Ok(Str(BluesnapDefaultUrl))
  {
    SchemeKept("sandbox.airwallex.com");
    SchemeKept("sandbox.bluesnap.com");
  }
}
