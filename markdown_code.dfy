/** The custom renderers handed to ReactMarkdown: `code` picks a language
    with `/language-(\w+)/.exec(className || '')` and renders a highlighted
    block when it finds one and inline code otherwise; `img` and `a` rewrite
    their props. Elements are modelled by their component and their props,
    with the children as the `children` prop. */
module MarkdownCode {
  import opened Js

  /** `\w` of a RegExp without the `u` and `i` flags: `[A-Za-z0-9_]`. */
  predicate IsWordChar(c: char)
  {
    ('A' <= c <= 'Z') || ('a' <= c <= 'z') || ('0' <= c <= '9') || c == '_'
  }

  const Prefix: string := "language-"

  /** The pattern matches at the start of t: the prefix and at least one word
      character after it. */
  predicate StartsMatch(t: string)
  {
    |Prefix| < |t| && t[..|Prefix|] == Prefix && IsWordChar(t[|Prefix|])
  }

  /** The pattern matches at p. */
  predicate MatchesAt(s: string, p: nat)
  {
    p <= |s| && StartsMatch(s[p..])
  }

  /** The length of the run of word characters that starts at i: the greedy
      `\w+`. */
  function WordRun(s: string, i: nat): (n: nat)
    requires i <= |s|
    ensures i + n <= |s|
    ensures i + n == |s| || !IsWordChar(s[i + n])
    decreases |s| - i
  {
    if i == |s| || !IsWordChar(s[i]) then 0 else 1 + WordRun(s, i + 1)
  }

  /** Every character of the run is a word character. */
  lemma {:induction false} WordRunIsWords(s: string, i: nat)
    requires i <= |s|
    ensures forall j :: i <= j < i + WordRun(s, i) ==> IsWordChar(s[j])
    decreases |s| - i
  {
    if i < |s| && IsWordChar(s[i]) {
      WordRunIsWords(s, i + 1);
    }
  }

  /** The scan of a non-global, unanchored RegExp: the least position from
      `from` on where the pattern matches. */
  function FirstMatch(s: string, from: nat): (q: Option<nat>)
    ensures q.Some? ==> from <= q.value && q.value + |Prefix| < |s|
    decreases |s| - from
  {
    if from >= |s| then None
    else if MatchesAt(s, from) then Some(from)
    else FirstMatch(s, from + 1)
  }

  /** The scan finds a match and misses nothing: no position before the one
      it finds matches, and when it finds none, no position from `from` on
      matches. */
  lemma {:induction false} FirstMatchIsLeast(s: string, from: nat)
    ensures FirstMatch(s, from).Some? ==> MatchesAt(s, FirstMatch(s, from).value)
    ensures FirstMatch(s, from).Some? ==>
      forall p :: from <= p < FirstMatch(s, from).value ==> !MatchesAt(s, p)
    ensures FirstMatch(s, from).None? ==> forall p :: from <= p ==> !MatchesAt(s, p)
    decreases |s| - from
  {
    if from < |s| && !MatchesAt(s, from) {
      FirstMatchIsLeast(s, from + 1);
    }
  }

  /** `matched[1]` of `/language-(\w+)/.exec(s)`, or `None` where `exec`
      gives `null`. */
  function Exec(s: string): Option<string>
  {
    match FirstMatch(s, 0)
    case None => None
    case Some(q) =>
      var i := q + |Prefix|;
      Some(s[i..i + WordRun(s, i)])
  }

  /** `exec` gives `null` exactly when the pattern matches nowhere; otherwise
      a non-empty run of word characters. */
  lemma ExecMatches(s: string)
    ensures Exec(s).None? <==> forall p :: !MatchesAt(s, p)
    ensures Exec(s).Some? ==>
      |Exec(s).value| >= 1 && forall j :: 0 <= j < |Exec(s).value| ==> IsWordChar(Exec(s).value[j])
  {
    FirstMatchIsLeast(s, 0);
    if FirstMatch(s, 0).Some? {
      WordRunIsWords(s, FirstMatch(s, 0).value + |Prefix|);
    }
  }

  /** The language `exec` finds is the whole run of word characters after the
      first place the pattern matches, wherever in the text that is. */
  lemma ExecFindsFirstMatch(s: string) returns (q: nat)
    requires Exec(s).Some?
    ensures MatchesAt(s, q) && forall p :: 0 <= p < q ==> !MatchesAt(s, p)
    ensures var i := q + |Prefix|;
      var language := Exec(s).value;
      && i + |language| <= |s|
      && language == s[i..i + |language|]
      && (i + |language| == |s| || !IsWordChar(s[i + |language|]))
  {
    q := FirstMatch(s, 0).value;
    FirstMatchIsLeast(s, 0);
  }

  lemma MatchShift(lead: string, s: string, p: nat)
    ensures MatchesAt(lead + s, |lead| + p) <==> MatchesAt(s, p)
  {
    if p <= |s| {
      assert (lead + s)[|lead| + p..] == s[p..];
    }
  }

  /** Scanning `lead + s` past `lead` is scanning `s`. */
  lemma {:induction false} FirstMatchShift(lead: string, s: string, from: nat)
    ensures FirstMatch(s, from).None? ==> FirstMatch(lead + s, |lead| + from).None?
    ensures FirstMatch(s, from).Some? ==>
      FirstMatch(lead + s, |lead| + from) == Some(|lead| + FirstMatch(s, from).value)
    decreases |s| - from
  {
    var t := lead + s;
    if from < |s| {
      MatchShift(lead, s, from);
      if MatchesAt(s, from) {
        assert FirstMatch(t, |lead| + from) == Some(|lead| + from);
      } else {
        assert FirstMatch(t, |lead| + from) == FirstMatch(t, |lead| + (from + 1));
        FirstMatchShift(lead, s, from + 1);
      }
    }
  }

  /** A scan over positions where nothing matches moves on. */
  lemma {:induction false} FirstMatchSkips(t: string, from: nat, to: nat)
    requires from <= to
    requires forall p :: from <= p < to ==> !MatchesAt(t, p)
    ensures FirstMatch(t, from) == FirstMatch(t, to)
    decreases (to as int) - from
  {
    if from < to {
      if from < |t| {
        FirstMatchSkips(t, from + 1, to);
      } else {
        assert FirstMatch(t, from) == None;
        assert FirstMatch(t, to) == None;
      }
    }
  }

  /** Unanchored: text in front that holds no match starting inside it does
      not change what `exec` finds after it. */
  lemma ExecSkipsLead(lead: string, s: string)
    requires forall p :: 0 <= p < |lead| ==> !MatchesAt(lead + s, p)
    ensures Exec(lead + s) == Exec(s)
  {
    var t := lead + s;
    FirstMatchSkips(t, 0, |lead|);
    FirstMatchShift(lead, s, 0);
    if FirstMatch(s, 0).Some? {
      ExecShift(lead, s, FirstMatch(s, 0).value);
    } else {
      assert FirstMatch(t, 0).None?;
    }
  }

  lemma ExecShift(lead: string, s: string, q: nat)
    requires FirstMatch(s, 0) == Some(q)
    requires FirstMatch(lead + s, 0) == Some(|lead| + q)
    ensures Exec(lead + s) == Exec(s)
  {
    var t := lead + s;
    var i, n := ExecAt(s, q);
    var i', n' := ExecAt(t, |lead| + q);
    assert i' == |lead| + i;
    RunShift(lead, s, i);
    SliceShift(lead, s, i, n);
    assert t[i'..i' + n'] == s[i..i + n];
  }

  lemma SliceShift(lead: string, s: string, i: nat, n: nat)
    requires i + n <= |s|
    ensures (lead + s)[|lead| + i..|lead| + i + n] == s[i..i + n]
  {
  }

  lemma ExecAt(s: string, q: nat) returns (i: nat, n: nat)
    requires FirstMatch(s, 0) == Some(q)
    ensures i == q + |Prefix| && i <= |s| && n == WordRun(s, i)
    ensures Exec(s) == Some(s[i..i + n])
  {
    i := q + |Prefix|;
    n := WordRun(s, i);
  }

  lemma {:induction false} RunShift(lead: string, s: string, i: nat)
    requires i <= |s|
    ensures WordRun(lead + s, |lead| + i) == WordRun(s, i)
    decreases |s| - i
  {
    var t := lead + s;
    if i < |s| {
      assert t[|lead| + i] == s[i];
      if IsWordChar(s[i]) {
        RunShift(lead, s, i + 1);
      }
    }
  }

  /** The language stops at the first character outside `[A-Za-z0-9_]`. */
  lemma CPlusPlusIsC()
    ensures Exec("language-c++") == Some("c")
  {
    var s := "language-c++";
    assert MatchesAt(s, 0) by {
      assert s[0..9] == Prefix;
    }
    assert FirstMatch(s, 0) == Some(0);
    assert s[10] == '+' && WordRun(s, 10) == 0;
    assert WordRun(s, 9) == 1;
    assert s[9..10] == "c";
  }

  /** The prefix alone is not a match. */
  lemma BarePrefixIsInline()
    ensures Exec("language-") == None
  {
    forall p: nat
      ensures !MatchesAt("language-", p)
    {
    }
  }

  /** A prop's value: text, a number, the dark theme object, or any other
      value, told apart by an identity. */
  datatype PropValue = Text(text: string) | Number(n: int) | DarkPlusStyle | Other(id: nat)

  type Props = map<string, PropValue>

  /** JavaScript truthiness of a prop value. */
  predicate Truthy(v: PropValue)
  {
    match v
    case Text(t) => t != ""
    case Number(n) => n != 0
    case _ => true
  }

  datatype Component = SyntaxHighlighter | InlineCode | Image | Anchor

  datatype Element = Element(component: Component, props: Props)

  /** `className || ''` for the class names markdown gives: text. Any other
      value is taken as the empty text. */
  function ClassText(props: Props): string
  {
    if "className" in props && props["className"].Text? then props["className"].text else ""
  }

  /** The code renderer's language, if any. */
  function Language(props: Props): Option<string>
  {
    Exec(ClassText(props))
  }

  /** `{...props}` after destructuring out `keys`. */
  function Without(props: Props, keys: set<string>): (rest: Props)
    ensures rest.Keys == props.Keys - keys
    ensures forall k :: k in rest ==> rest[k] == props[k]
  {
    map k | k in props && k !in keys :: props[k]
  }

  /** JSX children `{children}`: the element's `children` prop is the
      incoming one (an undefined one is absent). */
  function WithChildren(props: Props, incoming: Props): Props
  {
    if "children" in incoming then props["children" := incoming["children"]] else props - {"children"}
  }

  /** The `code` renderer (`node`, `children` and `className` are taken out of
      the props). A match gives a highlighter whose language, `PreTag` and
      style the remaining props can override, since they are spread after
      them; no match gives a `code` element with the remaining props. */
  function RenderCode(incoming: Props): (e: Element)
    ensures e.component == SyntaxHighlighter <==> Language(incoming).Some?
    ensures e.component == InlineCode <==> Language(incoming).None?
    ensures ("children" in e.props <==> "children" in incoming)
      && ("children" in incoming ==> e.props["children"] == incoming["children"])
  {
    var rest := Without(incoming, {"node", "children", "className"});
    match Language(incoming)
    case Some(language) =>
      var defaults := map["language" := Text(language), "PreTag" := Text("div"), "style" := DarkPlusStyle];
      Element(SyntaxHighlighter, WithChildren(defaults + rest, incoming))
    case None =>
      Element(InlineCode, WithChildren(rest, incoming))
  }

  /** Every other incoming prop reaches the element unchanged. */
  lemma RenderCodeKeepsProps(incoming: Props)
    ensures var e := RenderCode(incoming);
      forall k :: k in incoming && k !in {"node", "className", "children"} ==>
        k in e.props && e.props[k] == incoming[k]
  {
  }

  /** Inline code carries exactly the incoming props but `node` and
      `className`. */
  lemma RenderCodeInline(incoming: Props)
    requires Language(incoming).None?
    ensures RenderCode(incoming).props.Keys == incoming.Keys - {"node", "className"}
  {
  }

  /** The highlighter adds `language`, `PreTag` and `style`, whose defaults
      hold where the incoming props do not set them. */
  lemma RenderCodeHighlighter(incoming: Props)
    requires Language(incoming).Some?
    ensures var e := RenderCode(incoming);
      && e.props.Keys == (incoming.Keys - {"node", "className"}) + {"language", "PreTag", "style"}
      && ("language" !in incoming ==> e.props["language"] == Text(Language(incoming).value))
      && ("PreTag" !in incoming ==> e.props["PreTag"] == Text("div"))
      && ("style" !in incoming ==> e.props["style"] == DarkPlusStyle)
  {
  }

  const ImageClass: string := "rounded-lg border border-gray-200"

  /** The `img` renderer: only `src` and `alt` are kept, when defined; the
      size and class are fixed and every other prop is dropped. */
  function RenderImage(incoming: Props): (e: Element)
    ensures e.component == Image
    ensures e.props.Keys == {"width", "height", "className"}
      + (if "src" in incoming then {"src"} else {}) + (if "alt" in incoming then {"alt"} else {})
    ensures e.props["width"] == Number(600) && e.props["height"] == Number(320)
    ensures e.props["className"] == Text(ImageClass)
    ensures "src" in incoming ==> e.props["src"] == incoming["src"]
    ensures "alt" in incoming ==> e.props["alt"] == incoming["alt"]
  {
    var fixed := map["width" := Number(600), "height" := Number(320), "className" := Text(ImageClass)];
    var withSrc := if "src" in incoming then fixed["src" := incoming["src"]] else fixed;
    Element(Image, if "alt" in incoming then withSrc["alt" := incoming["alt"]] else withSrc)
  }

  const LinkClass: string := "text-indigo-600 font-medium"
  const LinkRel: string := "noopener noreferer"

  /** The link target: the incoming `href` when truthy, `#` otherwise. */
  function Href(incoming: Props): PropValue
  {
    if "href" in incoming && Truthy(incoming["href"]) then incoming["href"] else Text("#")
  }

  /** The `a` renderer: the incoming props (`node` among them) are spread
      first, so the target, `rel`, class and `href` always override them. */
  function RenderLink(incoming: Props): (e: Element)
    ensures e.component == Anchor
    ensures "href" in e.props && Truthy(e.props["href"])
    ensures e.props["href"] == (if "href" in incoming && Truthy(incoming["href"]) then incoming["href"] else Text("#"))
    ensures "target" in e.props && e.props["target"] == Text("_blank")
    ensures "rel" in e.props && e.props["rel"] == Text(LinkRel)
    ensures "className" in e.props && e.props["className"] == Text(LinkClass)
  {
    var rest := Without(incoming, {"href", "children"});
    var fixed := map["href" := Href(incoming), "target" := Text("_blank"),
                     "rel" := Text(LinkRel), "className" := Text(LinkClass)];
    Element(Anchor, WithChildren(rest + fixed, incoming))
  }

  /** The link carries every incoming prop, and every one the renderer does
      not fix keeps its incoming value. */
  lemma RenderLinkKeepsProps(incoming: Props)
    ensures var e := RenderLink(incoming);
      && e.props.Keys == incoming.Keys + {"href", "target", "rel", "className"}
      && forall k :: k in incoming && k !in {"href", "target", "rel", "className"} ==> e.props[k] == incoming[k]
  {
  }

  /** Rendering a rendered link's props again changes nothing. */
  lemma RenderLinkIdempotent(incoming: Props)
    ensures RenderLink(RenderLink(incoming).props) == RenderLink(incoming)
  {
    var once := RenderLink(incoming).props;
    var twice := RenderLink(once).props;
    assert twice.Keys == once.Keys;
    forall k | k in once
      ensures twice[k] == once[k]
    {
    }
  }
}
