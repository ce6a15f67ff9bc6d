/**
 * The option value of the first argument vector of the repository's test,
 * `port:3000 ,secure, url:https\://localhost\:3000`: built as the text its
 * three matches write out, so that the verifier reasons about it match by
 * match, and shown to be the record with the fields `port`, `secure` and
 * `url`.
 */
module TestValues {
  import opened Wrappers
  import opened JsStrings
  import opened OrderedDict
  import opened Patterns
  import opened NameValue
  import opened ValueExamples

  /** `https\://localhost\:3000`, in three pieces. */
  function Url(): string {
    "https\\:" + ("//localhost" + "\\:3000")
  }

  /** The matches of the config value of the first scenario. */
  function ConfigMatches(): seq<Match> {
    [Match("port", Some("3000 ")), Match("secure", None), Match(" url", Some(Url()))]
  }

  /** The config value of the first scenario, as its matches write it out. */
  function ConfigValue(): string {
    Render(ConfigMatches())
  }

  /** `Url` is the text `https\://localhost\:3000`. */
  lemma UrlLiteral()
    ensures Url() == "https\\://localhost\\:3000"
  {
  }

  /** The config value is its three matches written out and joined by commas. */
  lemma ConfigPieces()
    ensures ConfigValue() ==
      RenderMatch(ConfigMatches()[0]) + "," + (RenderMatch(ConfigMatches()[1]) + "," + RenderMatch(ConfigMatches()[2]))
  {
    var ms := ConfigMatches();
    assert ms[1..][0] == ms[1] && ms[1..][1..] == [ms[2]];
  }

  /** The `port` match written out. */
  lemma PortText()
    ensures RenderMatch(ConfigMatches()[0]) == "port:3000 "
  {
  }

  /** The `secure` match written out. */
  lemma SecureText()
    ensures RenderMatch(ConfigMatches()[1]) == "secure"
  {
  }

  /** The `url` match written out. */
  lemma UrlMatchText()
    ensures RenderMatch(ConfigMatches()[2]) == " url:https\\://localhost\\:3000"
  {
    UrlLiteral();
  }

  /** The config value is the text the test passes, `port:3000 `, `secure`
      and ` url:https\://localhost\:3000` joined by commas. */
  lemma ConfigValueText()
    ensures ConfigValue() == "port:3000 " + "," + ("secure" + "," + " url:https\\://localhost\\:3000")
  {
    ConfigPieces();
    PortText();
    SecureText();
    UrlMatchText();
  }

  /** The first escaped colon of the `url` value. */
  lemma UnescapeHttps()
    ensures Unescape("https\\:") == "https:"
  {
  }

  /** The second escaped colon of the `url` value. */
  lemma UnescapePort()
    ensures Unescape("\\:3000") == ":3000"
  {
  }

  /** The host of the `url` value holds no backslash. */
  lemma HostPlain()
    ensures Unescape("//localhost") == "//localhost"
  {
    UnescapePlain("//localhost");
  }

  /** The host and port of the `url` value, unescaped. */
  lemma UnescapeHost()
    ensures Unescape("//localhost" + "\\:3000") == "//localhost" + ":3000"
  {
    UnescapeAppend("//localhost", "\\:3000");
    HostPlain();
    UnescapePort();
  }

  /** The `url` value, unescaped piece by piece. */
  lemma UrlUnescaped()
    ensures Unescape(Url()) == "https:" + ("//localhost" + ":3000")
  {
    UnescapeAppend("https\\:", "//localhost" + "\\:3000");
    UnescapeHttps();
    UnescapeHost();
  }

  /** The unescaped pieces of the `url` value, joined. */
  lemma UrlText()
    ensures "https:" + ("//localhost" + ":3000") == "https://localhost:3000"
    ensures IsTrimmed("https://localhost:3000")
  {
  }

  /** The `url` field: both escaped colons are unescaped. */
  lemma UrlField()
    ensures FieldValue(Some(Url())) == Text("https://localhost:3000")
  {
    UrlUnescaped();
    UrlText();
  }

  /** The key of the `url` match, trimmed. */
  lemma UrlKey()
    ensures Trim(" url") == "url"
  {
  }

  /** The `url` value is a closed run: both of its colons are escaped. */
  lemma UrlClosedRun()
    ensures IsClosedRun(Url())
  {
    UrlLiteral();
  }

  /** Every match of the config value is written out unambiguously. */
  lemma ConfigRenderable()
    ensures forall i :: 0 <= i < |ConfigMatches()| ==> IsRenderable(ConfigMatches()[i])
  {
    var ms := ConfigMatches();
    forall i | 0 <= i < |ms| ensures IsRenderable(ms[i]) {
      if i == 0 {
        assert IsClosedRun("port") && IsClosedRun("3000 ");
      } else if i == 1 {
        assert IsClosedRun("secure");
      } else {
        assert IsClosedRun(" url");
        UrlClosedRun();
      }
    }
  }

  /** The `port` field is trimmed once unescaped. */
  lemma PortField()
    ensures FieldValue(Some("3000 ")) == Text("3000")
  {
    UnescapePlain("3000 ");
    assert Trim("3000 ") == "3000";
  }

  /** The record the config value's matches build. */
  lemma ConfigFields()
    ensures Collect(ConfigMatches()) ==
      [("port", Text("3000")), ("secure", Bool(true)), ("url", Text("https://localhost:3000"))]
  {
    var ms := ConfigMatches();
    assert Trim("port") == "port" && Trim("secure") == "secure";
    UrlKey();
    CollectThree(ms[0], ms[1], ms[2]);
    PortField();
    UrlField();
  }

  /** `port:3000 ,secure, url:https\://localhost\:3000` is the record
      {port: "3000", secure: true, url: "https://localhost:3000"}. */
  lemma ConfigParses()
    ensures ParseNameValue(Text(ConfigValue())) ==
      Record([("port", Text("3000")), ("secure", Bool(true)), ("url", Text("https://localhost:3000"))])
  {
    ConfigValueShape();
    ConfigRenderable();
    RecordRoundTrip(ConfigMatches());
    ConfigFields();
  }

  /** The config value is trimmed, is not an option and is not a path. */
  lemma ConfigValueShape()
    ensures IsTrimmed(ConfigValue()) && !StartsWith(ConfigValue(), "-") && !IsPath(ConfigValue())
  {
    var c := ConfigValue();
    var ms := ConfigMatches();
    assert c == RenderMatch(ms[0]) + "," + Render(ms[1..]);
    assert c[0] == 'p' && c[1] == 'o';
    PathShape(c);
    assert Render(ms[1..]) == RenderMatch(ms[1]) + "," + RenderMatch(ms[2]);
    assert c[|c| - 1] == Url()[|Url()| - 1] == '0';
  }
}
