/**
 * A worked example of link extraction: the mismatched anchor of the analyzer's tests.
 */
module ParserCases {
  import opened Options
  import opened Text
  import opened EmailParser

  /** `<a href="http://evil.com">http://paypal.com</a>` gives one link, and it is mismatched. */
  lemma EvilAnchor(data: RawEmail)
    requires Field(data, "body_text") == "" && Field(data, "body_html") != ""
    ensures ParseEmail(data, [Anchor("http://" + "evil.com", ["http://" + "paypal.com"])]).links
      == [LinkInfo("http://" + "evil.com", "http://" + "paypal.com", true)]
  {
    var href, text := "http://" + "evil.com", "http://" + "paypal.com";
    OnlyHtmlLinks(data, [Anchor(href, [text])]);
    SingleAnchor(Field(data, "body_html"), href, text);
    assert CheckLinkMismatch(href, text) by {
      assert |Lower("evil.com")| != |Lower("paypal.com")|;
      HostsDiffer("evil.com", "paypal.com");
    }
  }
}
