/** Parsed request URIs and the helpers of src/ext.rs that only read them. */
module Uris {
  import opened Wrappers

  datatype Scheme = Http | Https | OtherScheme(name: string)

  datatype Uri = Uri(scheme: Option<Scheme>, host: Option<string>, port: Option<nat>, path: string, query: Option<string>) {
    predicate IsHttp() { scheme == Some(Http) }

    predicate IsHttps() { scheme == Some(Https) }

    function PortOrDefault(): nat {
      match port
      case Some(p) => p
      case None => if IsHttps() then 443 else 80
    }
  }
}
