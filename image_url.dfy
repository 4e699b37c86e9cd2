/**
 * `extract_image_url`: which attribute of an `<img>` tag names the image.
 * A tag is the map from attribute names to values that the HTML parser
 * gives; `urljoin` is the parameter `join`.
 */
module ImageUrl {
  import opened Wrappers
  import opened Text

  type Tag = map<string, string>

  /** The attributes tried first, in priority order. */
  const PreferredAttrs: seq<string> := ["data-src", "data-original", "src"]

  /** `tag.get(name)` is truthy: present and not the empty string. */
  predicate HasValue(tag: Tag, name: string) {
    name in tag && tag[name] != ""
  }

  /** The value of the first of `names` that the tag has with a non-empty value. */
  function FirstValue(tag: Tag, names: seq<string>): (r: Option<string>)
    ensures r.None? <==> forall i :: 0 <= i < |names| ==> !HasValue(tag, names[i])
    ensures r.Some? ==>
      exists i :: 0 <= i < |names| && HasValue(tag, names[i]) && r.value == tag[names[i]]
        && forall j :: 0 <= j < i ==> !HasValue(tag, names[j])
  {
    if |names| == 0 then None
    else if HasValue(tag, names[0]) then Some(tag[names[0]])
    else
      var r := FirstValue(tag, names[1..]);
      assert forall i :: 1 <= i < |names| ==> names[i] == names[1..][i - 1];
      r
  }

  /** `srcset.split(',')[0].strip().split(' ')[0]`: the URL of the first candidate. */
  function SrcsetFirstUrl(srcset: string): (r: string)
    ensures ',' !in r && ' ' !in r
  {
    TakeBefore(Strip(TakeBefore(srcset, ','), IsSpace), ' ')
  }

  /** `extract_image_url(img_tag, base_url)`: the chosen attribute text, resolved against the page's URL. */
  function ExtractImageUrl(join: (string, string) -> string, base: string, tag: Tag): (r: Option<string>)
    ensures r.None? <==>
      !HasValue(tag, "data-src") && !HasValue(tag, "data-original") && !HasValue(tag, "src") && !HasValue(tag, "srcset")
  {
    assert PreferredAttrs[0] == "data-src" && PreferredAttrs[1] == "data-original" && PreferredAttrs[2] == "src";
    match FirstValue(tag, PreferredAttrs)
    case Some(v) => Some(join(base, v))
    case None => if HasValue(tag, "srcset") then Some(join(base, SrcsetFirstUrl(tag["srcset"]))) else None
  }

  /**
   * The priority order: the first non-empty of `data-src`, `data-original`
   * and `src`; failing those, the first candidate of a non-empty `srcset`;
   * failing that, nothing.
   */
  lemma ExtractImageUrlPriority(join: (string, string) -> string, base: string, tag: Tag)
    ensures var r := ExtractImageUrl(join, base, tag);
      && (HasValue(tag, "data-src") ==> r == Some(join(base, tag["data-src"])))
      && (!HasValue(tag, "data-src") && HasValue(tag, "data-original") ==>
            r == Some(join(base, tag["data-original"])))
      && (!HasValue(tag, "data-src") && !HasValue(tag, "data-original") && HasValue(tag, "src") ==>
            r == Some(join(base, tag["src"])))
      && (!HasValue(tag, "data-src") && !HasValue(tag, "data-original") && !HasValue(tag, "src") ==>
            r == if HasValue(tag, "srcset") then Some(join(base, SrcsetFirstUrl(tag["srcset"]))) else None)
  {
    assert PreferredAttrs[0] == "data-src" && PreferredAttrs[1] == "data-original" && PreferredAttrs[2] == "src";
  }

  /** Two tags that agree on the attribute the priority order picks resolve alike, whatever their other attributes. */
  lemma LaterAttributesIgnored(join: (string, string) -> string, base: string, t1: Tag, t2: Tag, i: nat)
    requires i < |PreferredAttrs| && HasValue(t1, PreferredAttrs[i])
    requires forall j :: 0 <= j <= i ==> AttrValue(t1, PreferredAttrs[j]) == AttrValue(t2, PreferredAttrs[j])
    ensures ExtractImageUrl(join, base, t1) == ExtractImageUrl(join, base, t2)
  {
    ExtractImageUrlPriority(join, base, t1);
    ExtractImageUrlPriority(join, base, t2);
    assert AttrValue(t1, PreferredAttrs[0]) == AttrValue(t2, PreferredAttrs[0]);
    if i >= 1 { assert AttrValue(t1, PreferredAttrs[1]) == AttrValue(t2, PreferredAttrs[1]); }
    if i >= 2 { assert AttrValue(t1, PreferredAttrs[2]) == AttrValue(t2, PreferredAttrs[2]); }
  }

  /** `tag.get(name)`: the attribute's value, if the tag has it. */
  function AttrValue(tag: Tag, name: string): Option<string> {
    if name in tag then Some(tag[name]) else None
  }

  /**
   * A `srcset` whose first candidate is `url` (after optional whitespace,
   * followed by an optional descriptor such as ` 2x` and then the other
   * candidates) yields exactly `url`.
   */
  lemma SrcsetFirstCandidate(lead: string, url: string, descriptor: string, rest: string)
    requires forall i :: 0 <= i < |lead| ==> IsSpace(lead[i])
    requires |url| > 0 && ',' !in url
    requires forall i :: 0 <= i < |url| ==> !IsSpace(url[i])
    requires ',' !in lead && ',' !in descriptor
    requires descriptor == "" || descriptor[0] == ' '
    requires rest == "" || rest[0] == ','
    ensures SrcsetFirstUrl(lead + url + descriptor + rest) == url
  {
    var entry := lead + url + descriptor;
    assert lead + url + descriptor + rest == entry + rest;
    TakeBeforeAt(entry, rest, ',');
    StripCandidate(lead, url, descriptor);
    var kept := TrimRight(descriptor, IsSpace);
    assert kept == "" || kept[0] == ' ';
    assert ' ' !in url;
    TakeBeforeAt(url, kept, ' ');
  }

  /** Stripping one candidate removes the leading whitespace and the trailing whitespace of its descriptor. */
  lemma StripCandidate(lead: string, url: string, descriptor: string)
    requires forall i :: 0 <= i < |lead| ==> IsSpace(lead[i])
    requires |url| > 0 && !IsSpace(url[0]) && !IsSpace(url[|url| - 1])
    ensures Strip(lead + url + descriptor, IsSpace) == url + TrimRight(descriptor, IsSpace)
  {
    assert lead + url + descriptor == lead + (url + descriptor);
    TrimLeftSkipsSpace(lead, url + descriptor, IsSpace);
    TrimRightStopsAt(url, descriptor, IsSpace);
  }

  /** The responsive example `"a.jpg 1x, b.jpg 2x"`: its first candidate is `a.jpg`. */
  lemma SrcsetExampleFirst(srcset: string)
    requires srcset == "a.jpg 1x, b.jpg 2x"
    ensures SrcsetFirstUrl(srcset) == "a.jpg"
  {
    var url, descriptor, rest := srcset[..5], srcset[5..8], srcset[8..];
    forall i | 0 <= i < |url| ensures !IsSpace(url[i]) {
      PrintableIsNotSpace(url[i]);
    }
    SrcsetFirstCandidate("", url, descriptor, rest);
    assert "" + url + descriptor + rest == srcset;
  }

  lemma PrintableIsNotSpace(c: char)
    requires '!' <= c <= '~'
    ensures !IsSpace(c)
  {
  }

  /** A tag carrying only that `srcset` resolves to `a.jpg` against the page URL. */
  lemma SrcsetExample(join: (string, string) -> string, base: string, tag: Tag)
    requires tag == map["srcset" := "a.jpg 1x, b.jpg 2x"]
    ensures ExtractImageUrl(join, base, tag) == Some(join(base, "a.jpg"))
  {
    assert !HasValue(tag, "data-src") && !HasValue(tag, "data-original") && !HasValue(tag, "src");
    ExtractImageUrlPriority(join, base, tag);
    SrcsetExampleFirst(tag["srcset"]);
  }
}
