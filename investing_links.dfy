/**
 * The INVESTING handler of src/routes.js: for every article container on the
 * news page, read the title link's href and the provider's text, and enqueue
 * the link with the label INVESTING-ARTICLE when the href is a non-empty
 * string, passing the trimmed provider name along.
 *
 * A container is an input: the href of its title link and the text of its
 * provider element, each None when the element is missing.
 */
module InvestingLinks {
  import opened Wrappers
  import opened Strings

  const ArticleLabel: string := "INVESTING-ARTICLE"

  datatype Container = Container(link: Option<string>, provider: Option<string>)

  /** What `page.evaluate` returns for a container: `{ url, newsProvider }`. */
  datatype ArticleData = ArticleData(url: Option<string>, newsProvider: Option<string>)

  /** One `enqueueLinks({ urls: [url], label, userData: { newsProvider } })` call. */
  datatype Request = Request(url: string, handlerLabel: string, newsProvider: Option<string>)

  /** The in-page extraction (src/routes.js:169-177). */
  function Extract(c: Container): (d: ArticleData)
    ensures d.url == c.link
    ensures c.provider.None? <==> d.newsProvider.None?
    ensures c.provider.Some? ==> d.newsProvider.value == Trim(c.provider.value)
  {
    ArticleData(c.link, if c.provider.Some? then Some(Trim(c.provider.value)) else None)
  }

  /** JavaScript truthiness of `articleData.url`: a string other than "". */
  predicate Truthy(u: Option<string>) { u.Some? && u.value != "" }

  /** The requests for a run of containers, in order, one per container with a truthy url. */
  function Enqueued(cs: seq<Container>): seq<Request> {
    if cs == [] then []
    else
      var d := Extract(cs[|cs| - 1]);
      Enqueued(cs[..|cs| - 1]) + (if Truthy(d.url) then [Request(d.url.value, ArticleLabel, d.newsProvider)] else [])
  }

  /** The positions of the containers that carry a link the handler accepts, in order. */
  function Accepted(cs: seq<Container>): seq<nat> {
    if cs == [] then []
    else Accepted(cs[..|cs| - 1]) + (if Truthy(cs[|cs| - 1].link) then [|cs| - 1] else [])
  }

  /** Every accepted position, each once and in increasing order, and only those. */
  lemma {:induction false} AcceptedSpec(cs: seq<Container>)
    ensures forall k :: 0 <= k < |Accepted(cs)| ==> Accepted(cs)[k] < |cs| && Truthy(cs[Accepted(cs)[k]].link)
    ensures forall k, l :: 0 <= k < l < |Accepted(cs)| ==> Accepted(cs)[k] < Accepted(cs)[l]
    ensures forall i :: 0 <= i < |cs| && Truthy(cs[i].link) ==> i in Accepted(cs)
  {
    if cs != [] {
      var init := cs[..|cs| - 1];
      AcceptedSpec(init);
      var a := Accepted(init);
      assert forall k :: 0 <= k < |a| ==> Accepted(cs)[k] == a[k] && cs[a[k]] == init[a[k]];
      forall i | 0 <= i < |cs| && Truthy(cs[i].link)
        ensures i in Accepted(cs)
      {
        if i < |init| {
          assert init[i] == cs[i];
          var k :| 0 <= k < |a| && a[k] == i;
          assert Accepted(cs)[k] == i;
        } else {
          assert Accepted(cs)[|a|] == i;
        }
      }
    }
  }

  /**
   * The k-th request is that of the k-th accepted container: it carries the
   * INVESTING-ARTICLE label, the container's non-empty link as url and the
   * container's trimmed provider name. Together with `AcceptedSpec` this is
   * one request per accepted container, in page order, and no other.
   */
  lemma {:induction false} EnqueuedSpec(cs: seq<Container>)
    ensures |Enqueued(cs)| == |Accepted(cs)|
    ensures forall k :: 0 <= k < |Enqueued(cs)| ==>
      var i := Accepted(cs)[k];
      i < |cs| && Truthy(cs[i].link) &&
      Enqueued(cs)[k] == Request(cs[i].link.value, ArticleLabel, Extract(cs[i]).newsProvider)
  {
    if cs != [] {
      var init, c := cs[..|cs| - 1], cs[|cs| - 1];
      EnqueuedSpec(init);
      var e, a := Enqueued(init), Accepted(init);
      assert Enqueued(cs) == e + (if Truthy(c.link) then [Request(c.link.value, ArticleLabel, Extract(c).newsProvider)] else []);
      assert Accepted(cs) == a + (if Truthy(c.link) then [|cs| - 1] else []);
      forall k | 0 <= k < |Enqueued(cs)|
        ensures var i := Accepted(cs)[k];
          i < |cs| && Truthy(cs[i].link) &&
          Enqueued(cs)[k] == Request(cs[i].link.value, ArticleLabel, Extract(cs[i]).newsProvider)
      {
        if k < |e| {
          assert Enqueued(cs)[k] == e[k] && Accepted(cs)[k] == a[k];
          assert cs[a[k]] == init[a[k]];
        }
      }
    }
  }

  /** A container without a link, or with an empty href, adds nothing; any other adds exactly its request. */
  lemma EnqueuedAppend(cs: seq<Container>, c: Container)
    ensures !Truthy(c.link) ==> Enqueued(cs + [c]) == Enqueued(cs)
    ensures Truthy(c.link) ==> Enqueued(cs + [c]) == Enqueued(cs) + [Request(c.link.value, ArticleLabel, Extract(c).newsProvider)]
  {
    assert (cs + [c])[..|cs|] == cs;
  }

  /** The container loop (src/routes.js:168-192). */
  method EnqueueArticles(containers: seq<Container>) returns (requests: seq<Request>)
    ensures requests == Enqueued(containers)
  {
    requests := [];
    for i := 0 to |containers|
      invariant requests == Enqueued(containers[..i])
    {
      var articleData := Extract(containers[i]);
      EnqueuedAppend(containers[..i], containers[i]);
      assert containers[..i + 1] == containers[..i] + [containers[i]];
      if articleData.url.Some? && articleData.url.value != "" {
        requests := requests + [Request(articleData.url.value, ArticleLabel, articleData.newsProvider)];
      }
    }
    assert containers[..|containers|] == containers;
  }
}
