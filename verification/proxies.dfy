/** The CORS proxies of `src/services/rss.ts`, in the order they are tried, and the address
    test that decides which page proxy wraps its answer in JSON. */
module Proxies {
  import opened Text

  /** The proxies of the feed path, in the order they are tried. */
  const FeedProxies: seq<string> := [
    "https://api.allorigins.win/raw?url=",
    "https://cors-anywhere.herokuapp.com/",
    "https://api.codetabs.com/v1/proxy?quest="
  ]

  /** A page proxy: its address prefix, and whether it wraps the page in a JSON envelope. */
  datatype PageProxy = PageProxy(base: string, envelope: bool)

  /** The proxies of the page path, in the order they are tried. */
  const PageProxies: seq<PageProxy> := [
    PageProxy(Codetabs, false),
    PageProxy(AlloriginsGet, true),
    PageProxy(CorsAnywhere, false)
  ]

  const Codetabs := "https://api.codetabs.com/v1/proxy?quest="
  const AlloriginsGet := "https://api.allorigins.win/get?url="
  const CorsAnywhere := "https://cors-anywhere.herokuapp.com/"

  /** Per-attempt client timeout, in milliseconds; a timeout is reported as `Threw`. */
  const AttemptTimeoutMs := 8000

  /** The proxy is treated as JSON-enveloping when its address includes `allorigins.win/get`. */
  predicate IsJsonProxy(base: string)
  {
    Contains(base, "allorigins.win/get")
  }

  /** The `envelope` flags agree with the address test, so only the second page proxy
      (allorigins `/get`) is unwrapped. */
  lemma PageProxyShapes(k: nat)
    requires k < |PageProxies|
    ensures PageProxies[k].envelope <==> k == 1
    ensures PageProxies[k].envelope <==> IsJsonProxy(PageProxies[k].base)
  {
    if k == 1 {
      EnvelopeProxyIsJson();
    } else {
      RawProxyIsNotJson(k);
    }
  }

  lemma EnvelopeProxyIsJson()
    ensures IsJsonProxy(PageProxies[1].base)
  {
    assert AlloriginsGet[12..][..18] == "allorigins.win/get";
  }

  lemma RawProxyIsNotJson(k: nat)
    requires k == 0 || k == 2
    ensures !IsJsonProxy(PageProxies[k].base)
  {
    NoLetterG(PageProxies[k].base);
    MissingCharNotContained(PageProxies[k].base, "allorigins.win/get", 6);
  }

  lemma NoLetterG(s: string)
    requires s == PageProxies[0].base || s == PageProxies[2].base
    ensures 'g' !in s
  {
    if s == PageProxies[0].base {
      CodetabsHasNoG();
    } else {
      CorsAnywhereHasNoG();
    }
  }

  lemma CodetabsHasNoG()
    ensures 'g' !in Codetabs
  {
  }

  lemma CorsAnywhereHasNoG()
    ensures 'g' !in CorsAnywhere
  {
  }

  /** A string that lacks one of `sub`'s characters does not include `sub`. */
  lemma MissingCharNotContained(s: string, sub: string, k: nat)
    requires k < |sub| && sub[k] !in s
    ensures !Contains(s, sub)
  {
    forall i | 0 <= i <= |s| - |sub|
      ensures s[i..][..|sub|] != sub
    {
      assert s[i..][..|sub|][k] == s[i + k];
    }
  }
}
