/**
 * The scanner page's manual entry: the text typed (or decoded from a QR
 * code) is either a full store URL, from which the id after `/store/` is
 * cut out, or a bare store id. The result is the path navigated to.
 */
module Scanner {
  import opened Wrappers
  import opened Text
  import opened Dashboard

  /**
   * The URL branch: the text after the first `/store/` up to the next one,
   * then cut at the first `?` and at the first `#`. `None` when the input
   * holds no `/store/`.
   */
  function UrlStoreId(input: string): (r: Option<string>)
    ensures r.None? <==> !Contains(input, StorePath)
    ensures r.Some? ==> '?' !in r.value && '#' !in r.value && !Contains(r.value, StorePath)
    ensures r.Some? ==> exists i: nat :: IsInfixAt(input, StorePath, i) && IsInfixAt(input, r.value, i + |StorePath|)
    ensures r.Some? ==> SecondPart(input, StorePath).Some?
    ensures r.Some? ==>
      var part := SecondPart(input, StorePath).value;
      && |r.value| <= |part| && r.value == part[..|r.value|]
      && (|r.value| == |part| || part[|r.value|] == '?' || part[|r.value|] == '#')
  {
    match SecondPart(input, StorePath)
    case None => None
    case Some(part) =>
      CutFacts(part);
      var i: nat :| IsInfixAt(input, StorePath, i) && IsInfixAt(input, part, i + |StorePath|);
      PrefixInfix(input, part, Cut(part), i + |StorePath|);
      Some(Cut(part))
  }

  /** `part.split("?")[0].split("#")[0]`: the part before any query or fragment. */
  function Cut(part: string): string {
    Before(Before(part, '?'), '#')
  }

  /** The cut part is a prefix that stops at the first `?` or `#`. */
  lemma CutFacts(part: string)
    ensures var id := Cut(part);
      && |id| <= |part| && id == part[..|id|]
      && '?' !in id && '#' !in id
      && (|id| == |part| || part[|id|] == '?' || part[|id|] == '#')
      && (!Contains(part, StorePath) ==> !Contains(id, StorePath))
  {
    var query := Before(part, '?');
    var id := Before(query, '#');
    if !Contains(part, StorePath) {
      PrefixKeepsAbsence(part, query, StorePath);
      PrefixKeepsAbsence(query, id, StorePath);
    }
    assert id == part[..|id|];
    if |id| < |query| {
      assert query[|id|] == '#';
      assert part[|id|] == query[|id|];
    }
  }

  /** A prefix of a text that sits at `k` sits at `k` too. */
  lemma PrefixInfix(s: string, part: string, prefix: string, k: nat)
    requires IsInfixAt(s, part, k)
    requires |prefix| <= |part| && prefix == part[..|prefix|]
    ensures IsInfixAt(s, prefix, k)
  {
    assert s[k..k + |prefix|] == part[..|prefix|];
  }

  /** A prefix of a text without `t` has no `t` either. */
  lemma PrefixKeepsAbsence(s: string, prefix: string, t: string)
    requires |prefix| <= |s| && prefix == s[..|prefix|]
    requires !Contains(s, t)
    ensures !Contains(prefix, t)
  {
    forall k | 0 <= k <= |prefix| - |t| ensures !IsInfixAt(prefix, t, k) {
      if IsInfixAt(prefix, t, k) {
        assert s[k..k + |t|] == prefix[k..k + |t|];
        assert IsInfixAt(s, t, k);
        assert false;
      }
    }
  }

  /** `handleManualEntry`: the path navigated to, or `None` for blank input. */
  function ManualEntry(input: string): (r: Option<string>)
    ensures AllSpace(input) ==> r.None?
    ensures !AllSpace(input) && Contains(input, StorePath) ==>
      r.Some? && r.value == StorePath + UrlStoreId(input).value
    ensures !AllSpace(input) && !Contains(input, StorePath) ==> r == Some(StorePath + Trim(input))
  {
    if Trim(input) == "" then None
    else match UrlStoreId(input)
      case Some(id) => Some(StorePath + id)
      case None => Some(StorePath + Trim(input))
  }

  predicate EndsWith(s: string, t: string) {
    |t| <= |s| && s[|s| - |t|..] == t
  }

  /**
   * In `origin + "/store/" + id`, the first `/store/` is the one after the
   * origin, unless the origin already holds one or ends with `/store`.
   */
  lemma FirstStorePathAfterOrigin(origin: string, id: string, k: nat)
    requires !Contains(origin, StorePath) && !EndsWith(origin, "/store")
    requires k < |origin|
    ensures !IsInfixAt(StoreUrl(origin, id), StorePath, k)
  {
    var url := StoreUrl(origin, id);
    if k + |StorePath| <= |origin| {
      assert url[k..k + |StorePath|] == origin[k..k + |StorePath|];
      assert !IsInfixAt(origin, StorePath, k);
    } else if k + |StorePath| <= |url| {
      var d := |origin| - k;
      assert url[k..k + 7][d] == url[|origin|] == '/';
      if d < 6 {
        assert StorePath[d] != '/';
      } else {
        assert origin[k..] == url[k..k + 6] == url[k..k + 7][..6];
        assert StorePath[..6] == "/store";
      }
    }
  }

  /** No `/store/` starts inside the id part of a store URL. */
  lemma NoStorePathInId(origin: string, id: string, k: nat)
    requires !Contains(id, StorePath)
    requires |origin| + |StorePath| <= k
    ensures !IsInfixAt(StoreUrl(origin, id), StorePath, k)
  {
    var url := StoreUrl(origin, id);
    var start := |origin| + |StorePath|;
    if k + |StorePath| <= |url| {
      assert url[k..k + |StorePath|] == id[k - start..k - start + |StorePath|];
      assert !IsInfixAt(id, StorePath, k - start);
    }
  }

  /**
   * Scanning the URL the dashboard encodes leads back to the store, provided
   * the id holds no `?`, `#` or `/store/`, and the origin holds no `/store/`
   * and does not end with `/store`.
   */
  lemma ScanStoreUrl(origin: string, id: string)
    requires !Contains(origin, StorePath) && !EndsWith(origin, "/store")
    requires '?' !in id && '#' !in id && !Contains(id, StorePath)
    ensures ManualEntry(StoreUrl(origin, id)) == Some(StorePath + id)
  {
    var url := StoreUrl(origin, id);
    forall k: nat | k < |origin| ensures !IsInfixAt(url, StorePath, k) {
      FirstStorePathAfterOrigin(origin, id, k);
    }
    forall k: nat | |origin| + |StorePath| <= k ensures !IsInfixAt(url, StorePath, k) {
      NoStorePathInId(origin, id, k);
    }
    ScanSingle(url, |origin|);
  }

  /**
   * Scanning a text that holds `/store/` exactly once, at `i`, with no `?`
   * or `#` after it, leads to the store named by the rest of the text.
   */
  lemma ScanSingle(input: string, i: nat)
    requires IsInfixAt(input, StorePath, i)
    requires forall k: nat :: k < i ==> !IsInfixAt(input, StorePath, k)
    requires forall k: nat :: i + |StorePath| <= k ==> !IsInfixAt(input, StorePath, k)
    requires '?' !in input[i + |StorePath|..] && '#' !in input[i + |StorePath|..]
    ensures ManualEntry(input) == Some(StorePath + input[i + |StorePath|..])
  {
    var rest := input[i + |StorePath|..];
    SecondPartOfSingle(input, StorePath, i);
    BeforeAbsent(rest, '?');
    BeforeAbsent(rest, '#');
    assert input[i] == StorePath[0];
  }

  /**
   * An origin whose host is literally `store` ends with `/store`, and the
   * round trip then fails: the store URL of `42` leads to `store/42`.
   */
  lemma HostNamedStore(url: string)
    requires url == StoreUrl("http://store", "42")
    ensures ManualEntry(url) == Some(StorePath + "store/42")
  {
    HostNamedStoreSearch(url);
    HostNamedStoreTail(url);
    ScanSingle(url, 6);
  }

  lemma HostNamedStoreTail(url: string)
    requires url == StoreUrl("http://store", "42")
    ensures url[13..] == "store/42" && url[0] == 'h'
    ensures '?' !in url[13..] && '#' !in url[13..]
  {
  }

  /** Where `/store/` occurs in `http://store/store/42`. */
  lemma HostNamedStoreSearch(url: string)
    requires url == "http://store/store/42"
    ensures IsInfixAt(url, StorePath, 6)
    ensures forall k: nat :: k < 6 ==> !IsInfixAt(url, StorePath, k)
    ensures forall k: nat :: 13 <= k ==> !IsInfixAt(url, StorePath, k)
  {
    forall k: nat | k < 6 ensures !IsInfixAt(url, StorePath, k) {
      assert url[k..k + 7][0] == url[k] && url[k..k + 7][1] == url[k + 1];
    }
    forall k: nat | 13 <= k ensures !IsInfixAt(url, StorePath, k) {
      if k + 7 <= |url| {
        assert url[k..k + 7][0] == url[k] != '/';
      }
    }
  }
}
