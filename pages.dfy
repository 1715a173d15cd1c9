/**
 * `pageGenerators` and `renderPage` of src/sample.tsx: a page is a tagged
 * union on its `page` field, and each tag has its own generator that
 * serialises the page to an HTML string.
 */
module Pages {
  import opened Wrappers
  import opened Strings

  /** The tagged union `Page`. */
  datatype Page = Top | MyPage(userName: string) | Ranking(articles: seq<string>)

  /** `pageGenerators.top`. */
  function TopGenerator(): (html: string)
  {
    "<p>top page</p>"
  }

  const HelloOpen: string := "<p>Hello, "
  const HelloClose: string := "!</p>"

  /** `pageGenerators.mypage`: greets the user by name. */
  function MyPageGenerator(userName: string): (html: string)
  {
    HelloOpen + userName + HelloClose
  }

  /** What the ranking template literal holds before its list items: its
      line breaks are LF in the string value, and the source lines' leading
      spaces belong to the string. */
  const RankingHead: string := "<h1>ranking</h1>\n         <ul>\n        "
  const RankingTail: string := "</ul>"

  /** The list item for one article name. */
  function ListItem(name: string): (item: string)
  {
    "<li>" + name + "</li>"
  }

  /** `articles.map((name) => ...)`: one list item per article, in order. */
  function ListItems(articles: seq<string>): (items: seq<string>)
    ensures |items| == |articles|
    ensures forall i :: 0 <= i < |articles| ==> items[i] == ListItem(articles[i])
  {
    seq(|articles|, i requires 0 <= i < |articles| => ListItem(articles[i]))
  }

  /** `parts.join(sep)` of JavaScript: the parts with `sep` between
      neighbours, and "" for no parts. */
  function Join(parts: seq<string>, sep: string): (joined: string)
  {
    if |parts| == 0 then ""
    else if |parts| == 1 then parts[0]
    else parts[0] + sep + Join(parts[1..], sep)
  }

  /** The items part of the ranking page, for the articles `articles`. */
  function ItemsHtml(articles: seq<string>): (html: string)
  {
    Join(ListItems(articles), "")
  }

  /** `pageGenerators.ranking`. */
  function RankingGenerator(articles: seq<string>): (html: string)
  {
    RankingHead + ItemsHtml(articles) + RankingTail
  }

  /** The tag `page.page` that `renderPage` picks a generator by. */
  function Tag(page: Page): (tag: string)
  {
    match page
    case Top => "top"
    case MyPage(_) => "mypage"
    case Ranking(_) => "ranking"
  }

  /** `renderPage(page)`: the generator picked by the page's tag. */
  function RenderPage(page: Page): (html: string)
  {
    match page
    case Top => TopGenerator()
    case MyPage(userName) => MyPageGenerator(userName)
    case Ranking(articles) => RankingGenerator(articles)
  }

  /** Joining with no separator is concatenation, so it splits over `+`. */
  lemma {:induction false} JoinEmptySeparatorAppend(a: seq<string>, b: seq<string>)
    ensures Join(a + b, "") == Join(a, "") + Join(b, "")
  {
    if |a| == 0 {
      assert a + b == b;
    } else if |a| == 1 {
      if |b| != 0 {
        assert (a + b)[1..] == b;
      }
    } else {
      JoinEmptySeparatorAppend(a[1..], b);
      assert (a + b)[1..] == a[1..] + b;
    }
  }

  /** The first article's item comes first, followed by the others' items. */
  lemma ItemsHtmlCons(articles: seq<string>)
    requires articles != []
    ensures ItemsHtml(articles) == ListItem(articles[0]) + ItemsHtml(articles[1..])
  {
    var items := ListItems(articles);
    assert items == [items[0]] + ListItems(articles[1..]);
    JoinEmptySeparatorAppend([items[0]], ListItems(articles[1..]));
  }

  /** Rendering the articles of two lists one after the other is rendering
      each list and putting the results one after the other. */
  lemma ItemsHtmlAppend(a: seq<string>, b: seq<string>)
    ensures ItemsHtml(a + b) == ItemsHtml(a) + ItemsHtml(b)
  {
    assert ListItems(a + b) == ListItems(a) + ListItems(b);
    JoinEmptySeparatorAppend(ListItems(a), ListItems(b));
  }

  /** Each article has its own item in the ranking's list, at its own place:
      the items of the articles before it, its item, the items of those after. */
  lemma ItemsHtmlAt(articles: seq<string>, i: nat)
    requires i < |articles|
    ensures ItemsHtml(articles) ==
      ItemsHtml(articles[..i]) + ListItem(articles[i]) + ItemsHtml(articles[i + 1..])
  {
    assert articles == articles[..i] + [articles[i]] + articles[i + 1..];
    ItemsHtmlAppend(articles[..i] + [articles[i]], articles[i + 1..]);
    ItemsHtmlAppend(articles[..i], [articles[i]]);
    assert ItemsHtml([articles[i]]) == ListItem(articles[i]);
  }

  /** The ranking page is the fixed head, its list items, and the closing tag. */
  lemma RankingShape(articles: seq<string>)
    ensures RenderPage(Ranking(articles)) == RankingHead + ItemsHtml(articles) + RankingTail
    ensures articles == [] ==> ItemsHtml(articles) == ""
  {
  }

  /** A ranking with no articles renders no list item at all. */
  lemma RankingEmpty()
    ensures RenderPage(Ranking([])) == "<h1>ranking</h1>\n         <ul>\n        </ul>"
  {
  }

  /** The top page and the user page, exactly. */
  lemma RenderTopAndMyPage(userName: string)
    ensures RenderPage(Top) == "<p>top page</p>"
    ensures RenderPage(MyPage(userName)) == "<p>Hello, " + userName + "!</p>"
  {
  }

  /** Reads one "<li>name</li>" off the front of `s`, the name ending at
      the first '<'; gives the name and what follows the item. */
  function ParseItem(s: string): (r: Option<(string, string)>)
    ensures r.Some? ==> ListItem(r.value.0) + r.value.1 == s && '<' !in r.value.0
  {
    if |s| < 4 || s[..4] != "<li>" then None
    else
      var body := s[4..];
      var end := IndexOf(body, '<');
      if end < 0 || |body| < end + 5 || body[end..end + 5] != "</li>" then None
      else
        ItemReassembles(s, end);
        Some((body[..end], body[end + 5..]))
  }

  /** An item recognised at the front of `s` puts `s` back together. */
  lemma ItemReassembles(s: string, end: nat)
    requires |s| >= 4 && end + 5 <= |s[4..]|
    requires s[..4] == "<li>" && s[4..][end..end + 5] == "</li>"
    ensures ListItem(s[4..][..end]) + s[4..][end + 5..] == s
  {
    var body := s[4..];
    assert body == body[..end] + body[end..end + 5] + body[end + 5..];
    assert s == s[..4] + body;
  }

  /** Reads list items back: a run of "<li>name</li>", no '<' inside a name. */
  function ParseItems(s: string): (r: Option<seq<string>>)
    ensures r.Some? ==> ItemsHtml(r.value) == s && PlainNames(r.value)
    decreases |s|
  {
    if s == [] then Some([])
    else
      match ParseItem(s)
      case None => None
      case Some((name, rest)) =>
        match ParseItems(rest)
        case None => None
        case Some(names) =>
          ItemsHtmlCons([name] + names);
          assert ([name] + names)[1..] == names;
          Some([name] + names)
  }

  /** No article name holds a '<', so its item ends at the first '<'. */
  ghost predicate PlainNames(articles: seq<string>)
  {
    forall i :: 0 <= i < |articles| ==> '<' !in articles[i]
  }

  /** Past its opening tag, an item is the name, the closing tag and what
      follows; the first '<' there is that of the closing tag. */
  lemma ItemBodyShape(name: string, rest: string)
    requires '<' !in name
    ensures var body := name + ("</li>" + rest);
      && IndexOf(body, '<') == |name|
      && |body| >= |name| + 5
      && body[|name|..|name| + 5] == "</li>"
      && body[..|name|] == name
      && body[|name| + 5..] == rest
  {
    var tail := "</li>" + rest;
    var body := name + tail;
    assert tail[0] == '<';
    IndexOfAfterPrefix(name, '<', tail);
    SliceOfAppend(name, tail);
    SliceOfAppend("</li>", rest);
    assert body[|name|..|name| + 5] == tail[..5];
    assert body[|name| + 5..] == tail[5..];
  }

  /** An item followed by more text, split at its opening tag. */
  lemma ListItemOpen(name: string, rest: string)
    ensures var s := ListItem(name) + rest;
      |s| >= 4 && s[..4] == "<li>" && s[4..] == name + ("</li>" + rest)
  {
    var s := ListItem(name) + rest;
    var body := name + ("</li>" + rest);
    assert s == "<li>" + body;
    SliceOfAppend("<li>", body);
  }

  /** A prefix and what follows it are recovered by slicing. */
  lemma SliceOfAppend(p: string, q: string)
    ensures (p + q)[..|p|] == p && (p + q)[|p|..] == q
  {
  }

  /** An item for a name without '<' is read off the front as that name. */
  lemma ParseItemCons(name: string, rest: string)
    requires '<' !in name
    ensures ParseItem(ListItem(name) + rest) == Some((name, rest))
  {
    ListItemOpen(name, rest);
    ItemBodyShape(name, rest);
  }

  /** The item list reads back as the articles it was made of. */
  lemma {:induction false} ParseItemsRoundTrip(articles: seq<string>)
    requires PlainNames(articles)
    ensures ParseItems(ItemsHtml(articles)) == Some(articles)
  {
    if articles != [] {
      var name, tail := articles[0], articles[1..];
      ItemsHtmlCons(articles);
      assert PlainNames(tail) by {
        forall i | 0 <= i < |tail| ensures '<' !in tail[i] {
          assert tail[i] == articles[i + 1];
        }
      }
      ParseItemsRoundTrip(tail);
      ParseItemCons(name, ItemsHtml(tail));
      assert [name] + tail == articles;
    }
  }

  /** Reads a rendered page back; whatever it accepts is the rendering of
      the well-formed page it returns. */
  function ParsePage(html: string): (r: Option<Page>)
    ensures r.Some? ==> WellFormed(r.value) && RenderPage(r.value) == html
  {
    if html == TopGenerator() then Some(Top)
    else if |html| >= |HelloOpen| + |HelloClose|
         && html[..|HelloOpen|] == HelloOpen
         && html[|html| - |HelloClose|..] == HelloClose
    then
      var userName := html[|HelloOpen|..|html| - |HelloClose|];
      assert html == html[..|HelloOpen|] + userName + html[|html| - |HelloClose|..];
      Some(MyPage(userName))
    else if |html| >= |RankingHead| + |RankingTail|
         && html[..|RankingHead|] == RankingHead
         && html[|html| - |RankingTail|..] == RankingTail
    then
      var items := html[|RankingHead|..|html| - |RankingTail|];
      assert html == html[..|RankingHead|] + items + html[|html| - |RankingTail|..];
      match ParseItems(items)
      case None => None
      case Some(articles) => Some(Ranking(articles))
    else None
  }

  /** A page whose article names hold no '<'. */
  ghost predicate WellFormed(page: Page)
  {
    page.Ranking? ==> PlainNames(page.articles)
  }

  /** The user page reads back as the user page for the same name. */
  lemma ParseMyPageRoundTrip(userName: string)
    ensures ParsePage(MyPageGenerator(userName)) == Some(MyPage(userName))
  {
    var html := MyPageGenerator(userName);
    assert html[3] == 'H' && TopGenerator()[3] == 't';
    assert html[..|HelloOpen|] == HelloOpen;
    assert html[|html| - |HelloClose|..] == HelloClose;
    assert html[|HelloOpen|..|html| - |HelloClose|] == userName;
  }

  /** The ranking page reads back as the same articles. */
  lemma ParseRankingRoundTrip(articles: seq<string>)
    requires PlainNames(articles)
    ensures ParsePage(RankingGenerator(articles)) == Some(Ranking(articles))
  {
    var html := RankingGenerator(articles);
    assert html[1] == 'h' && TopGenerator()[1] == 'p' && HelloOpen[1] == 'p';
    var items := ItemsHtml(articles);
    assert html[..|RankingHead|] == RankingHead;
    assert html[|html| - |RankingTail|..] == RankingTail;
    assert html[|RankingHead|..|html| - |RankingTail|] == items;
    ParseItemsRoundTrip(articles);
  }

  /** Rendering loses nothing: the tag and the payload can be read back from
      the HTML, so pages with different tags never render alike. */
  lemma RenderPageRoundTrip(page: Page)
    requires WellFormed(page)
    ensures ParsePage(RenderPage(page)) == Some(page)
  {
    match page
    case Top =>
    case MyPage(userName) => ParseMyPageRoundTrip(userName);
    case Ranking(articles) => ParseRankingRoundTrip(articles);
  }

  /** Well-formed pages that render alike are the same page. */
  lemma RenderPageInjective(p1: Page, p2: Page)
    requires WellFormed(p1) && WellFormed(p2)
    ensures RenderPage(p1) == RenderPage(p2) <==> p1 == p2
  {
    if RenderPage(p1) == RenderPage(p2) {
      RenderPageRoundTrip(p1);
      RenderPageRoundTrip(p2);
    }
  }

  /** Pages with different tags never render alike, whatever their payloads:
      the second character tells the ranking page from the others, and the
      fourth tells the top page from the user page. */
  lemma RenderDistinguishesTags(p1: Page, p2: Page)
    requires Tag(p1) != Tag(p2)
    ensures RenderPage(p1) != RenderPage(p2)
  {
    var h1, h2 := RenderPage(p1), RenderPage(p2);
    assert |h1| >= 4 && |h2| >= 4;
    assert h1[1] == (if p1.Ranking? then 'h' else 'p');
    assert h2[1] == (if p2.Ranking? then 'h' else 'p');
    if !p1.Ranking? && !p2.Ranking? {
      assert h1[3] == (if p1.Top? then 't' else 'H');
      assert h2[3] == (if p2.Top? then 't' else 'H');
    }
  }

  /** Without that condition two rankings can render alike: a name holding
      "</li><li>" looks like two articles. */
  lemma RankingAmbiguousNames(a: string, b: string)
    ensures RenderPage(Ranking([a + "</li><li>" + b])) == RenderPage(Ranking([a, b]))
  {
    ItemsHtmlAppend([a], [b]);
    assert [a] + [b] == [a, b];
    assert ItemsHtml([a]) == ListItem(a) && ItemsHtml([b]) == ListItem(b);
    assert ItemsHtml([a + "</li><li>" + b]) == ListItem(a + "</li><li>" + b);
    assert ListItem(a + "</li><li>" + b) == ListItem(a) + ListItem(b);
  }
}
