/**
 * The small text transforms in the article and ticker handlers of
 * src/routes.js: the Motley Fool ticker, the cleaned paragraph lists, the
 * Forbes article text and the Yahoo Finance ticker.
 */
module PageText {
  import opened Strings

  /**
   * The Motley Fool ticker (src/routes.js:379): the trimmed text after the
   * last ':' when there is one, else the whole trimmed text.
   */
  function MotleyTicker(text: string): string {
    if ':' in text then
      var pieces := Split(text, ':');
      Trim(pieces[|pieces| - 1])
    else Trim(text)
  }

  /**
   * Both branches agree: with or without a ':', the ticker is the trimmed
   * last ':'-piece. That piece holds no ':' and is the tail of the text
   * after its last ':', or the whole text when there is none.
   */
  lemma MotleyTickerSpec(text: string)
    ensures var pieces := Split(text, ':'); var last := pieces[|pieces| - 1];
      MotleyTicker(text) == Trim(last) && IsTrimmed(MotleyTicker(text)) &&
      ':' !in last && |last| <= |text| && text[|text| - |last|..] == last &&
      (':' in text ==> |last| < |text| && text[|text| - |last| - 1] == ':')
  {
    var pieces := Split(text, ':');
    SplitPieces(text, ':');
    SplitLast(text, ':');
    if ':' in text {
      SplitCount(text, ':');
      CountPositive(text, ':');
      assert |pieces| > 1;
    } else {
      SplitCount(text, ':');
      CountZero(text, ':');
      assert |pieces| == 1;
    }
  }

  lemma {:induction false} CountPositive(s: string, c: char)
    requires c in s
    ensures Count(s, c) > 0
  {
    if s[0] != c {
      assert c in s[1..];
      CountPositive(s[1..], c);
    }
  }

  lemma {:induction false} CountZero(s: string, c: char)
    requires c !in s
    ensures Count(s, c) == 0
  {
    if s != [] {
      assert c !in s[1..];
      CountZero(s[1..], c);
    }
  }

  /** `nodes.map(n => n.innerText.trim()).filter(text => text.length > 0)` (src/routes.js:386, 510-511). */
  function CleanParagraphs(ps: seq<string>): seq<string> {
    if ps == [] then []
    else
      var t := Trim(ps[0]);
      (if t != [] then [t] else []) + CleanParagraphs(ps[1..])
  }

  /** The paragraphs that hold something besides whitespace, in order. */
  function NonBlank(ps: seq<string>): (r: seq<string>)
    ensures |r| <= |ps|
    ensures forall i :: 0 <= i < |r| ==> !AllSpace(r[i])
  {
    if ps == [] then [] else (if AllSpace(ps[0]) then [] else [ps[0]]) + NonBlank(ps[1..])
  }

  function TrimAll(ps: seq<string>): (r: seq<string>)
    ensures |r| == |ps| && forall i :: 0 <= i < |ps| ==> r[i] == Trim(ps[i])
  {
    if ps == [] then [] else [Trim(ps[0])] + TrimAll(ps[1..])
  }

  /**
   * Trimming and then dropping the empty results keeps exactly the trimmed
   * non-blank paragraphs, in their order.
   */
  lemma {:induction false} CleanParagraphsSpec(ps: seq<string>)
    ensures CleanParagraphs(ps) == TrimAll(NonBlank(ps))
  {
    if ps != [] {
      CleanParagraphsSpec(ps[1..]);
      var rest := NonBlank(ps[1..]);
      if !AllSpace(ps[0]) {
        assert TrimAll([ps[0]] + rest) == [Trim(ps[0])] + TrimAll(rest);
      } else {
        assert [] + rest == rest;
      }
    }
  }

  /** Every kept paragraph is trimmed and non-empty. */
  lemma CleanParagraphsKept(ps: seq<string>)
    ensures forall i :: 0 <= i < |CleanParagraphs(ps)| ==>
      CleanParagraphs(ps)[i] != [] && IsTrimmed(CleanParagraphs(ps)[i])
  {
    CleanParagraphsSpec(ps);
  }

  /** Forbes' article text: the cleaned paragraphs joined by a blank line (src/routes.js:509-512). */
  function ForbesText(ps: seq<string>): string {
    Join(CleanParagraphs(ps), "\n\n")
  }

  /** The text is empty exactly when every paragraph is blank, and it never has outer whitespace. */
  lemma ForbesTextSpec(ps: seq<string>)
    ensures ForbesText(ps) == [] <==> forall i :: 0 <= i < |ps| ==> AllSpace(ps[i])
    ensures IsTrimmed(ForbesText(ps))
  {
    var cs := CleanParagraphs(ps);
    CleanParagraphsKept(ps);
    JoinEmpty(cs, "\n\n");
    AllBlank(ps);
    JoinTrimmed(cs, "\n\n");
  }

  lemma {:induction false} AllBlank(ps: seq<string>)
    ensures CleanParagraphs(ps) == [] <==> forall i :: 0 <= i < |ps| ==> AllSpace(ps[i])
  {
    if ps != [] {
      AllBlank(ps[1..]);
      assert forall i :: 1 <= i < |ps| ==> ps[i] == ps[1..][i - 1];
      assert Trim(ps[0]) == [] <==> AllSpace(ps[0]);
    }
  }

  /** Joining trimmed, non-empty pieces gives a trimmed string. */
  lemma {:induction false} JoinTrimmed(parts: seq<string>, sep: string)
    requires forall i :: 0 <= i < |parts| ==> parts[i] != [] && IsTrimmed(parts[i])
    ensures IsTrimmed(Join(parts, sep))
    ensures parts != [] ==>
      Join(parts, sep) != [] && Join(parts, sep)[0] == parts[0][0] &&
      Join(parts, sep)[|Join(parts, sep)| - 1] == parts[|parts| - 1][|parts[|parts| - 1]| - 1]
  {
    if |parts| > 1 {
      JoinTrimmed(parts[1..], sep);
      var j := parts[0] + sep + Join(parts[1..], sep);
      assert j[0] == parts[0][0];
      assert j[|j| - 1] == Join(parts[1..], sep)[|Join(parts[1..], sep)| - 1];
    }
  }

  const YahooQuotePrefix: string := "https://finance.yahoo.com/quote/"

  /** `url.replace('https://finance.yahoo.com/quote/', '').split('/')[0]` (src/routes.js:619). */
  function YahooTicker(url: string): string {
    Split(ReplaceFirst(url, YahooQuotePrefix, ""), '/')[0]
  }

  /**
   * For a quote page the ticker is the path segment right after the prefix:
   * it holds no '/', and it reaches the end of the url or a '/'. For any
   * other url it is whatever precedes the url's first '/'.
   */
  lemma YahooTickerSpec(url: string)
    ensures '/' !in YahooTicker(url)
    ensures StartsWith(url, YahooQuotePrefix) ==>
      var t, n := YahooTicker(url), |YahooQuotePrefix|;
      n + |t| <= |url| && url[..n + |t|] == YahooQuotePrefix + t &&
      (n + |t| == |url| || url[n + |t|] == '/')
    ensures !Contains(url, YahooQuotePrefix) ==>
      var t := YahooTicker(url);
      |t| <= |url| && url[..|t|] == t && (|t| == |url| || url[|t|] == '/')
  {
    var rest := ReplaceFirst(url, YahooQuotePrefix, "");
    ReplaceFirstCases(url, YahooQuotePrefix);
    SplitPieces(rest, '/');
    SplitFirst(rest, '/');
    if StartsWith(url, YahooQuotePrefix) {
      var t, n := YahooTicker(url), |YahooQuotePrefix|;
      assert rest == url[n..];
      assert url[..n + |t|] == url[..n] + url[n..][..|t|];
    }
  }
}
