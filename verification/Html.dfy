/** A filter and a map in one pass. */
module FilterMaps {

  import opened Options

  /** What `f` makes of the first `k` elements. */
  function FilterMap<T>(xs: seq<T>, f: T -> Option<T>, k: nat): (r: seq<T>)
    requires k <= |xs|
    ensures |r| <= k
  {
    if k == 0 then []
    else match f(xs[k - 1])
         case None => FilterMap(xs, f, k - 1)
         case Some(y) => FilterMap(xs, f, k - 1) + [y]
  }

  /** `f` and then `g`. */
  function Then<T>(f: T -> Option<T>, g: T -> Option<T>, x: T): Option<T>
  {
    match f(x)
    case None => None
    case Some(y) => g(y)
  }

  lemma {:induction false} FilterMapPrefix<T>(xs: seq<T>, ys: seq<T>, f: T -> Option<T>, k: nat)
    requires k <= |xs| && k <= |ys| && forall i :: 0 <= i < k ==> xs[i] == ys[i]
    ensures FilterMap(xs, f, k) == FilterMap(ys, f, k)
  {
    if k > 0 { FilterMapPrefix(xs, ys, f, k - 1); }
  }

  /** Two passes are one pass of the composition. */
  lemma {:induction false} FilterMapFusion<T>(xs: seq<T>, f: T -> Option<T>, g: T -> Option<T>, h: T -> Option<T>,
                                              k: nat)
    requires k <= |xs| && forall x: T :: h(x) == Then(f, g, x)
    ensures FilterMap(FilterMap(xs, f, k), g, |FilterMap(xs, f, k)|) == FilterMap(xs, h, k)
  {
    if k > 0 {
      FilterMapFusion(xs, f, g, h, k - 1);
      var before := FilterMap(xs, f, k - 1);
      match f(xs[k - 1])
      case None =>
      case Some(y) =>
        FilterMapPrefix(before + [y], before, g, |before|);
    }
  }

  lemma {:induction false} FilterMapAppend<T>(xs: seq<T>, ys: seq<T>, f: T -> Option<T>, k: nat)
    requires k <= |ys|
    ensures FilterMap(xs + ys, f, |xs| + k) == FilterMap(xs, f, |xs|) + FilterMap(ys, f, k)
  {
    if k == 0 {
      FilterMapPrefix(xs + ys, xs, f, |xs|);
    } else {
      FilterMapAppend(xs, ys, f, k - 1);
      assert (xs + ys)[|xs| + k - 1] == ys[k - 1];
    }
  }

  lemma {:induction false} FilterMapNone<T>(xs: seq<T>, f: T -> Option<T>, k: nat)
    requires k <= |xs| && forall x <- xs :: f(x).None?
    ensures FilterMap(xs, f, k) == []
  {
    if k > 0 { FilterMapNone(xs, f, k - 1); }
  }

  ghost predicate Positions(at: seq<nat>, k: nat)
  {
    (forall i :: 0 <= i < |at| ==> at[i] < k) && (forall i, j :: 0 <= i < j < |at| ==> at[i] < at[j])
  }

  /** The i-th output is what `f` makes of the input at `at[i]`. */
  ghost predicate MadeOf<T>(xs: seq<T>, f: T -> Option<T>, at: seq<nat>, out: seq<T>)
  {
    |at| == |out| && forall i :: 0 <= i < |at| ==> at[i] < |xs| && f(xs[at[i]]) == Some(out[i])
  }

  /** Of the first `k` inputs exactly those at the places `at` are kept. */
  ghost predicate Selected<T>(xs: seq<T>, f: T -> Option<T>, at: seq<nat>, k: nat)
  {
    k <= |xs| && forall i: nat :: i < k ==> (i in at <==> f(xs[i]).Some?)
  }

  ghost predicate Places<T>(xs: seq<T>, f: T -> Option<T>, at: seq<nat>, k: nat)
  {
    k <= |xs| && Positions(at, k) && MadeOf(xs, f, at, FilterMap(xs, f, k)) && Selected(xs, f, at, k)
  }

  lemma PlacesNone<T>(xs: seq<T>, f: T -> Option<T>)
    ensures Places(xs, f, [], 0)
  {
  }

  lemma PlacesNext<T>(xs: seq<T>, f: T -> Option<T>, at: seq<nat>, n: nat) returns (more: seq<nat>)
    requires n < |xs| && Places(xs, f, at, n)
    ensures Places(xs, f, more, n + 1)
  {
    more := if f(xs[n]).Some? then at + [n] else at;
    SelectedMore(xs, f, at, n);
    var before := FilterMap(xs, f, n);
    match f(xs[n])
    case None =>
      assert FilterMap(xs, f, n + 1) == before;
    case Some(y) =>
      assert FilterMap(xs, f, n + 1) == before + [y];
      MadeOfMore(xs, f, at, before, n);
  }

  /** The places of the inputs that are kept: each output is made of the input at its place, in the same order. */
  lemma FilterMapAt<T>(xs: seq<T>, f: T -> Option<T>, k: nat) returns (at: seq<nat>)
    requires k <= |xs|
    ensures Places(xs, f, at, k)
  {
    at := [];
    PlacesNone(xs, f);
    for n := 0 to k
      invariant Places(xs, f, at, n)
    {
      at := PlacesNext(xs, f, at, n);
    }
  }

  lemma SelectedMore<T>(xs: seq<T>, f: T -> Option<T>, at: seq<nat>, n: nat)
    requires n < |xs| && Selected(xs, f, at, n) && Positions(at, n)
    ensures if f(xs[n]).Some? then Selected(xs, f, at + [n], n + 1) && Positions(at + [n], n + 1)
            else Selected(xs, f, at, n + 1)
  {
    assert n !in at;
  }

  lemma MadeOfMore<T>(xs: seq<T>, f: T -> Option<T>, at: seq<nat>, out: seq<T>, n: nat)
    requires MadeOf(xs, f, at, out) && n < |xs| && f(xs[n]).Some?
    ensures MadeOf(xs, f, at + [n], out + [f(xs[n]).value])
  {
  }

  /** Every output comes from an input, and every input that is kept is in the output. */
  lemma {:induction false} FilterMapMembers<T>(xs: seq<T>, f: T -> Option<T>, k: nat, y: T)
    requires k <= |xs|
    ensures y in FilterMap(xs, f, k) <==> exists i :: 0 <= i < k && f(xs[i]) == Some(y)
  {
    if k > 0 {
      FilterMapMembers(xs, f, k - 1, y);
      if f(xs[k - 1]) == Some(y) { assert y in FilterMap(xs, f, k); }
    }
  }
}

/** The rewrite that makes a parsed HTML tree safe to show. */
module Html {

  import opened Options
  import opened Ascii
  import opened FilterMaps

  datatype Attribute = Attribute(key: string, val: string)

  /** A parsed node: an element, or a document, text, comment or doctype node. */
  datatype Node = Node(element: bool, data: string, attrs: seq<Attribute>, children: seq<Node>)

  /** Whether a trimmed address parses to an http or https URL with a host. */
  type HostCheck = string -> bool

  // ----- strings -----

  predicate IsSpace(c: char)
  {
    || '\t' <= c <= '\r' || c == ' ' || c == '\U{0085}' || c == '\U{00A0}' || c == '\U{1680}'
    || '\U{2000}' <= c <= '\U{200A}' || c == '\U{2028}' || c == '\U{2029}' || c == '\U{202F}' || c == '\U{205F}'
    || c == '\U{3000}'
  }

  function TrimLeft(s: string): string
  {
    if s != [] && IsSpace(s[0]) then TrimLeft(s[1..]) else s
  }

  function TrimRight(s: string): string
  {
    if s != [] && IsSpace(s[|s| - 1]) then TrimRight(s[..|s| - 1]) else s
  }

  function TrimSpace(s: string): string
  {
    TrimRight(TrimLeft(s))
  }

  lemma {:induction false} TrimRightKeepsStart(s: string)
    ensures TrimRight(s) == [] || (s != [] && TrimRight(s)[0] == s[0])
    ensures var t := TrimRight(s); t == [] || !IsSpace(t[|t| - 1])
  {
    if s != [] && IsSpace(s[|s| - 1]) { TrimRightKeepsStart(s[..|s| - 1]); }
  }

  lemma {:induction false} TrimLeftStart(s: string)
    ensures var t := TrimLeft(s); t == [] || !IsSpace(t[0])
  {
    if s != [] && IsSpace(s[0]) { TrimLeftStart(s[1..]); }
  }

  lemma TrimTwice(s: string)
    ensures TrimSpace(TrimSpace(s)) == TrimSpace(s)
  {
    TrimLeftStart(s);
    TrimRightKeepsStart(TrimLeft(s));
  }

  /** Lower case as far as it can yield an ASCII letter: that is all a comparison with an ASCII name sees. */
  function LowerChar(c: char): char
  {
    if c == '\U{0130}' then 'i' else if c == '\U{212A}' then 'k' else Fold(c)
  }

  function ToLower(s: string): (r: string)
    ensures |r| == |s|
  {
    seq(|s|, i requires 0 <= i < |s| => LowerChar(s[i]))
  }

  // ----- which attributes stay -----

  predicate SafeLink(val: string)
  {
    var v := TrimSpace(val);
    var lower := ToLower(v);
    "#" <= v || "https://" <= lower || "http://" <= lower || "mailto:" <= lower
  }

  predicate SafeImage(val: string, hosted: HostCheck)
  {
    hosted(TrimSpace(val))
  }

  predicate Keeps(data: string, a: Attribute)
  {
    var name := ToLower(a.key);
    && !("on" <= name) && name != "src" && name != "srcset" && name != "target" && name != "rel"
    && (name != "href" || (data == "a" && SafeLink(a.val)))
  }

  function Adjust(data: string, load: bool, hosted: HostCheck, a: Attribute): Option<Attribute>
  {
    if load && data == "img" && ToLower(a.key) == "src" && SafeImage(a.val, hosted) then
      Some(Attribute("src", TrimSpace(a.val)))
    else if Keeps(data, a) then Some(a)
    else None
  }

  /** An `href` that leads out of the page. */
  predicate IsLink(a: Attribute)
  {
    ToLower(a.key) == "href" && !("#" <= TrimSpace(a.val))
  }

  predicate HasLink(attrs: seq<Attribute>)
  {
    exists a <- attrs :: IsLink(a)
  }

  const TARGET: Attribute := Attribute("target", "_blank")
  const REL: Attribute := Attribute("rel", "noopener noreferrer")

  function Adjusted(data: string, load: bool, hosted: HostCheck, attrs: seq<Attribute>): seq<Attribute>
  {
    FilterMap(attrs, a => Adjust(data, load, hosted, a), |attrs|)
  }

  function RewriteAttrs(data: string, load: bool, hosted: HostCheck, attrs: seq<Attribute>): seq<Attribute>
  {
    var kept := Adjusted(data, load, hosted, attrs);
    if data == "a" && HasLink(kept) then kept + [TARGET, REL] else kept
  }

  // ----- the tree -----

  const BLOCKED: set<string> := {"script", "iframe", "object", "embed", "link", "form", "meta", "base"}

  predicate Blocked(n: Node)
  {
    n.element && n.data in BLOCKED
  }

  function RewriteChildren(ns: seq<Node>, load: bool, hosted: HostCheck): seq<Node>
    decreases ns, 0
  {
    if ns == [] then []
    else
      var rest := RewriteChildren(ns[1..], load, hosted);
      if Blocked(ns[0]) then rest
      else [Rewrite(ns[0], load, hosted)] + rest
  }

  /** A node that stays. */
  function Rewrite(n: Node, load: bool, hosted: HostCheck): Node
    decreases n, 1
  {
    Node(n.element, n.data, if n.element then RewriteAttrs(n.data, load, hosted, n.attrs) else n.attrs,
         RewriteChildren(n.children, load, hosted))
  }

  /** The whole operation: the root itself is left alone. */
  function RemoveUnsafe(root: Node, load: bool, hosted: HostCheck): Node
  {
    root.(children := RewriteChildren(root.children, load, hosted))
  }

  // ----- rewriting twice -----

  /** Adjusting an attribute twice is adjusting it once, with images only if both rewrites load them. */
  lemma AdjustTwice(data: string, f: bool, g: bool, hosted: HostCheck, a: Attribute)
    ensures Then(b => Adjust(data, f, hosted, b), b => Adjust(data, g, hosted, b), a) == Adjust(data, f && g, hosted, a)
  {
    TrimTwice(a.val);
    assert ToLower("src") == "src";
  }

  lemma AdjustedTwice(data: string, f: bool, g: bool, hosted: HostCheck, attrs: seq<Attribute>)
    ensures Adjusted(data, g, hosted, Adjusted(data, f, hosted, attrs)) == Adjusted(data, f && g, hosted, attrs)
  {
    var ff, gg, hh := a => Adjust(data, f, hosted, a), a => Adjust(data, g, hosted, a),
        a => Adjust(data, f && g, hosted, a);
    forall a: Attribute ensures hh(a) == Then(ff, gg, a) {
      AdjustTwice(data, f, g, hosted, a);
    }
    FilterMapFusion(attrs, ff, gg, hh, |attrs|);
  }

  /** The attributes the rewrite itself adds are dropped by the next one. */
  lemma AddedIsDropped(data: string, load: bool, hosted: HostCheck, kept: seq<Attribute>)
    ensures Adjusted(data, load, hosted, kept + [TARGET, REL]) == Adjusted(data, load, hosted, kept)
  {
    assert ToLower("target") == "target" && ToLower("rel") == "rel";
    var f := a => Adjust(data, load, hosted, a);
    FilterMapAppend(kept, [TARGET, REL], f, 2);
    assert f(TARGET).None? && f(REL).None?;
    FilterMapNone([TARGET, REL], f, 2);
  }

  lemma AttrsTwice(data: string, f: bool, g: bool, hosted: HostCheck, attrs: seq<Attribute>)
    ensures RewriteAttrs(data, g, hosted, RewriteAttrs(data, f, hosted, attrs)) ==
        RewriteAttrs(data, f && g, hosted, attrs)
  {
    AdjustedTwice(data, f, g, hosted, attrs);
    AddedIsDropped(data, g, hosted, Adjusted(data, f, hosted, attrs));
  }

  /** Rewriting twice is rewriting once, with images only if both rewrites load them. */
  lemma {:induction false} RewriteTwice(n: Node, f: bool, g: bool, hosted: HostCheck)
    ensures Rewrite(Rewrite(n, f, hosted), g, hosted) == Rewrite(n, f && g, hosted)
    decreases n, 1
  {
    AttrsTwice(n.data, f, g, hosted, n.attrs);
    ChildrenTwice(n.children, f, g, hosted);
  }

  lemma {:induction false} ChildrenTwice(ns: seq<Node>, f: bool, g: bool, hosted: HostCheck)
    ensures RewriteChildren(RewriteChildren(ns, f, hosted), g, hosted) == RewriteChildren(ns, f && g, hosted)
    decreases ns, 0
  {
    if ns != [] {
      ChildrenTwice(ns[1..], f, g, hosted);
      if !Blocked(ns[0]) {
        RewriteTwice(ns[0], f, g, hosted);
        var rest := RewriteChildren(ns[1..], f, hosted);
        assert ([Rewrite(ns[0], f, hosted)] + rest)[1..] == rest;
      }
    }
  }

  /** The rewrite is idempotent, and loading images and then blocking them is blocking them at once. */
  lemma RemoveUnsafeTwice(root: Node, f: bool, g: bool, hosted: HostCheck)
    ensures RemoveUnsafe(RemoveUnsafe(root, f, hosted), g, hosted) == RemoveUnsafe(root, f && g, hosted)
  {
    ChildrenTwice(root.children, f, g, hosted);
  }

  // ----- what is left -----

  /** One node in document order; `cut` if it or an ancestor of it is blocked. */
  datatype Item = Item(depth: nat, element: bool, data: string, attrs: seq<Attribute>, cut: bool)

  function Outline(ns: seq<Node>, depth: nat, cut: bool): seq<Item>
  {
    if ns == [] then []
    else
      var n := ns[0];
      [Item(depth, n.element, n.data, n.attrs, cut || Blocked(n))] + Outline(n.children, depth + 1, cut || Blocked(n))
      + Outline(ns[1..], depth, cut)
  }

  /** What should become of a node: gone if cut, and otherwise in its place with its attributes adjusted. */
  function Fate(load: bool, hosted: HostCheck, i: Item): Option<Item>
  {
    if i.cut then None
    else if i.element then Some(i.(attrs := RewriteAttrs(i.data, load, hosted, i.attrs)))
    else Some(i)
  }

  function Survivors(items: seq<Item>, load: bool, hosted: HostCheck): seq<Item>
  {
    FilterMap(items, i => Fate(load, hosted, i), |items|)
  }

  lemma SurvivorsAppend(xs: seq<Item>, ys: seq<Item>, load: bool, hosted: HostCheck)
    ensures Survivors(xs + ys, load, hosted) == Survivors(xs, load, hosted) + Survivors(ys, load, hosted)
  {
    FilterMapAppend(xs, ys, i => Fate(load, hosted, i), |ys|);
  }

  lemma {:induction false} CutIsCut(ns: seq<Node>, depth: nat)
    ensures forall i <- Outline(ns, depth, true) :: i.cut
  {
    if ns != [] {
      CutIsCut(ns[0].children, depth + 1);
      CutIsCut(ns[1..], depth);
    }
  }

  lemma NoCutSurvivors(ns: seq<Node>, depth: nat, load: bool, hosted: HostCheck)
    ensures Survivors(Outline(ns, depth, true), load, hosted) == []
  {
    CutIsCut(ns, depth);
    FilterMapNone(Outline(ns, depth, true), i => Fate(load, hosted, i), |Outline(ns, depth, true)|);
  }

  /**
   * The rewritten tree holds exactly the nodes with no blocked self or ancestor, in their order and at
   * their depth, each with its own adjusted attributes.
   */
  lemma {:induction false} KeepsUnblocked(ns: seq<Node>, depth: nat, load: bool, hosted: HostCheck)
    ensures Outline(RewriteChildren(ns, load, hosted), depth, false) ==
        Survivors(Outline(ns, depth, false), load, hosted)
  {
    if ns != [] {
      var n := ns[0];
      var head := [Item(depth, n.element, n.data, n.attrs, Blocked(n))];
      var below, rest := Outline(n.children, depth + 1, Blocked(n)), Outline(ns[1..], depth, false);
      assert Outline(ns, depth, false) == head + below + rest;
      SurvivorsAppend(head + below, rest, load, hosted);
      SurvivorsAppend(head, below, load, hosted);
      KeepsUnblocked(ns[1..], depth, load, hosted);
      OneSurvivor(head[0], load, hosted);
      if Blocked(n) {
        NoCutSurvivors(n.children, depth + 1, load, hosted);
      } else {
        KeepsUnblocked(n.children, depth + 1, load, hosted);
        var kept := RewriteChildren(ns[1..], load, hosted);
        assert ([Rewrite(n, load, hosted)] + kept)[1..] == kept;
      }
    }
  }

  lemma OneSurvivor(i: Item, load: bool, hosted: HostCheck)
    ensures Survivors([i], load, hosted) == match Fate(load, hosted, i) case None => [] case Some(j) => [j]
  {
    var f := j => Fate(load, hosted, j);
    assert FilterMap([i], f, 0) == [];
    assert FilterMap([i], f, 1) == match f(i) case None => [] case Some(j) => [j];
  }

  // ----- what the words of the rewrite mean -----

  /** The code points that Unicode calls white space. */
  const WHITE: set<int> :=
    {0x9, 0xA, 0xB, 0xC, 0xD, 0x20, 0x85, 0xA0, 0x1680, 0x2000, 0x2001, 0x2002, 0x2003, 0x2004, 0x2005, 0x2006, 0x2007,
     0x2008, 0x2009, 0x200A, 0x2028, 0x2029, 0x202F, 0x205F, 0x3000}

  predicate White(c: char)
  {
    c as int in WHITE
  }

  lemma SpaceIsWhite(c: char)
    ensures IsSpace(c) <==> White(c)
  {
  }

  /** `s[i..j]` is `s` without the white space around it. */
  ghost predicate Core(s: string, i: nat, j: nat)
  {
    && i <= j <= |s| && (forall k :: 0 <= k < i ==> White(s[k])) && (forall k :: j <= k < |s| ==> White(s[k]))
    && (i < j ==> !White(s[i]) && !White(s[j - 1]))
  }

  lemma {:induction false} TrimLeftAt(s: string, i: nat)
    requires i <= |s| && (forall k :: 0 <= k < i ==> White(s[k])) && (i < |s| ==> !White(s[i]))
    ensures TrimLeft(s) == s[i..]
  {
    if s != [] { SpaceIsWhite(s[0]); }
    if i > 0 {
      TrimLeftAt(s[1..], i - 1);
    }
  }

  lemma {:induction false} TrimRightAt(s: string, j: nat)
    requires j <= |s| && (forall k :: j <= k < |s| ==> White(s[k])) && (j > 0 ==> !White(s[j - 1]))
    ensures TrimRight(s) == s[..j]
  {
    if s != [] { SpaceIsWhite(s[|s| - 1]); }
    if j < |s| {
      TrimRightAt(s[..|s| - 1], j);
    }
  }

  /** Trimming takes off the white space on both sides and nothing else. */
  lemma TrimIsCore(s: string, i: nat, j: nat)
    requires Core(s, i, j)
    ensures TrimSpace(s) == s[i..j]
  {
    if i < j {
      TrimLeftAt(s, i);
      TrimRightAt(s[i..], j - i);
    } else {
      TrimLeftAt(s, |s|);
    }
  }

  lemma CoreExists(s: string) returns (i: nat, j: nat)
    ensures Core(s, i, j)
  {
    i, j := 0, |s|;
    while i < |s| && White(s[i])
      invariant i <= |s| && forall k :: 0 <= k < i ==> White(s[k])
    {
      i := i + 1;
    }
    while i < j && White(s[j - 1])
      invariant i <= j <= |s| && forall k :: j <= k < |s| ==> White(s[k])
    {
      j := j - 1;
    }
  }

  /** `c` is the character `l`, or another case of the letter `l`: two exotic ones come down to `i` and to `k`. */
  predicate CaseOf(c: char, l: char)
  {
    || c == l || ('a' <= l <= 'z' && c as int + 32 == l as int)
    || (l == 'i' && c == '\U{0130}') || (l == 'k' && c == '\U{212A}')
  }

  /** `s` begins with `word`, up to case. */
  predicate Begins(s: string, word: string)
  {
    |word| <= |s| && forall i :: 0 <= i < |word| ==> CaseOf(s[i], word[i])
  }

  /** `s` is `word`, up to case. */
  predicate Reads(s: string, word: string)
  {
    |s| == |word| && Begins(s, word)
  }

  /** Only ASCII characters, and no capital letter. */
  predicate Small(word: string)
  {
    forall i :: 0 <= i < |word| ==> word[i] as int < 128 && !('A' <= word[i] <= 'Z')
  }

  lemma LowerIsCase(c: char, l: char)
    requires l as int < 128 && !('A' <= l <= 'Z')
    ensures LowerChar(c) == l <==> CaseOf(c, l)
  {
  }

  /** Comparing with a word in small letters after lowering is comparing up to case. */
  lemma LowerReads(s: string, word: string)
    requires Small(word)
    ensures word <= ToLower(s) <==> Begins(s, word)
    ensures ToLower(s) == word <==> Reads(s, word)
  {
    forall i | 0 <= i < |word| && i < |s| ensures ToLower(s)[i] == word[i] <==> CaseOf(s[i], word[i]) {
      LowerIsCase(s[i], word[i]);
    }
    if |word| <= |s| {
      assert word <= ToLower(s) <==> forall i :: 0 <= i < |word| ==> ToLower(s)[i] == word[i];
    }
  }

  /** A link that may stay: into the page, or to http, https or mailto. */
  ghost predicate MayLink(val: string)
  {
    exists i: nat, j: nat :: Core(val, i, j) &&
      var v := val[i..j];
      (v != "" && v[0] == '#') || Begins(v, "http://") || Begins(v, "https://") || Begins(v, "mailto:")
  }

  /** A link into the page. */
  ghost predicate WithinPage(val: string)
  {
    exists i: nat, j: nat :: Core(val, i, j) && i < j && val[i] == '#'
  }

  /** An image source that may be loaded, and what is left of it when it is. */
  ghost predicate MayLoad(val: string, hosted: HostCheck, v: string)
  {
    exists i: nat, j: nat :: Core(val, i, j) && v == val[i..j] && hosted(v)
  }

  lemma SafeLinkIsMayLink(val: string)
    ensures SafeLink(val) <==> MayLink(val)
  {
    var i, j := CoreExists(val);
    var v := val[i..j];
    forall k: nat, l: nat | Core(val, k, l) ensures val[k..l] == v {
      TrimIsCore(val, i, j);
      TrimIsCore(val, k, l);
    }
    TrimIsCore(val, i, j);
    LowerReads(v, "http://");
    LowerReads(v, "https://");
    LowerReads(v, "mailto:");
    assert "#" <= v <==> v != "" && v[0] == '#';
  }

  lemma HashIsWithinPage(val: string)
    ensures "#" <= TrimSpace(val) <==> WithinPage(val)
  {
    var i, j := CoreExists(val);
    TrimIsCore(val, i, j);
    forall k: nat, l: nat | Core(val, k, l) ensures val[k..l] == val[i..j] {
      TrimIsCore(val, k, l);
    }
    if "#" <= TrimSpace(val) { assert val[i..j][0] == val[i]; }
    if k: nat, l: nat :| Core(val, k, l) && k < l && val[k] == '#' { assert val[k..l][0] == '#'; }
  }

  lemma SafeImageIsMayLoad(val: string, hosted: HostCheck)
    ensures forall v :: MayLoad(val, hosted, v) <==> v == TrimSpace(val) && SafeImage(val, hosted)
  {
    var i, j := CoreExists(val);
    TrimIsCore(val, i, j);
    forall k: nat, l: nat | Core(val, k, l) ensures val[k..l] == TrimSpace(val) {
      TrimIsCore(val, k, l);
    }
  }

  // ----- what becomes of the attributes of one element -----

  /** An attribute that stays as it is. */
  ghost predicate Stays(data: string, a: Attribute)
  {
    && !Begins(a.key, "on") && !Reads(a.key, "src") && !Reads(a.key, "srcset") && !Reads(a.key, "target")
    && !Reads(a.key, "rel") && (Reads(a.key, "href") ==> data == "a" && MayLink(a.val))
  }

  /** It stays, or it is the source of an image that may be loaded, trimmed. */
  ghost predicate Becomes(data: string, load: bool, hosted: HostCheck, a: Attribute, b: Attribute)
  {
    || (Stays(data, a) && b == a)
    || (load && data == "img" && Reads(a.key, "src") && b.key == "src" && MayLoad(a.val, hosted, b.val))
  }

  lemma KeepsIsStays(data: string, a: Attribute)
    ensures Keeps(data, a) <==> Stays(data, a)
  {
    LowerReads(a.key, "on");
    LowerReads(a.key, "src");
    LowerReads(a.key, "srcset");
    LowerReads(a.key, "target");
    LowerReads(a.key, "rel");
    LowerReads(a.key, "href");
    SafeLinkIsMayLink(a.val);
  }

  lemma AdjustIsBecomes(data: string, load: bool, hosted: HostCheck, a: Attribute)
    ensures forall b :: Adjust(data, load, hosted, a) == Some(b) <==> Becomes(data, load, hosted, a, b)
  {
    KeepsIsStays(data, a);
    LowerReads(a.key, "src");
    SafeImageIsMayLoad(a.val, hosted);
  }

  /** An `href` that leads out of the page. */
  ghost predicate Outgoing(a: Attribute)
  {
    Reads(a.key, "href") && !WithinPage(a.val)
  }

  lemma LinkIsOutgoing(a: Attribute)
    ensures IsLink(a) <==> Outgoing(a)
  {
    LowerReads(a.key, "href");
    HashIsWithinPage(a.val);
  }

  /** `out` is made of the attributes at the places `at`, and of `target` and `rel` if one of them leads out. */
  ghost predicate Cleaned(data: string, load: bool, hosted: HostCheck, attrs: seq<Attribute>, out: seq<Attribute>,
                          at: seq<nat>)
  {
    && Positions(at, |attrs|) && |at| <= |out|
    && (forall i :: 0 <= i < |attrs| ==> (i in at <==> exists b :: Becomes(data, load, hosted, attrs[i], b)))
    && (forall k :: 0 <= k < |at| ==> Becomes(data, load, hosted, attrs[at[k]], out[k]))
    && out[|at|..] == if data == "a" && exists a :: a in out[..|at|] && Outgoing(a) then
         [Attribute("target", "_blank"), Attribute("rel", "noopener noreferrer")]
       else []
  }

  lemma RewriteIsCleaned(data: string, load: bool, hosted: HostCheck, attrs: seq<Attribute>) returns (at: seq<nat>)
    ensures Cleaned(data, load, hosted, attrs, RewriteAttrs(data, load, hosted, attrs), at)
  {
    var f := a => Adjust(data, load, hosted, a);
    var kept, out := Adjusted(data, load, hosted, attrs), RewriteAttrs(data, load, hosted, attrs);
    at := FilterMapAt(attrs, f, |attrs|);
    forall a: Attribute ensures forall b :: f(a) == Some(b) <==> Becomes(data, load, hosted, a, b) {
      AdjustIsBecomes(data, load, hosted, a);
    }
    forall i | 0 <= i < |attrs| ensures i in at <==> exists b :: Becomes(data, load, hosted, attrs[i], b) {
      if i in at { assert Becomes(data, load, hosted, attrs[i], f(attrs[i]).value); }
    }
    assert out[..|at|] == kept;
    forall a: Attribute ensures IsLink(a) <==> Outgoing(a) {
      LinkIsOutgoing(a);
    }
  }

  // ----- what becomes of the tree -----

  /** The item at `j` is the one at `i` or stands above it: in between the outline never comes back to its depth. */
  ghost predicate Above(items: seq<Item>, j: nat, i: nat)
  {
    j <= i < |items| && forall k :: j < k <= i ==> items[k].depth > items[j].depth
  }

  /** The kinds of elements that are never shown. */
  predicate Unwanted(i: Item)
  {
    i.element && i.data in ["script", "iframe", "object", "embed", "link", "form", "meta", "base"]
  }

  /** The item itself, or one above it, is of such a kind. */
  ghost predicate Hidden(items: seq<Item>, i: nat)
  {
    exists j: nat :: Above(items, j, i) && Unwanted(items[j])
  }

  lemma {:induction false} OutlineDepths(ns: seq<Node>, depth: nat, cut: bool)
    ensures forall x :: x in Outline(ns, depth, cut) ==> x.depth >= depth
    ensures Outline(ns, depth, cut) != [] ==> Outline(ns, depth, cut)[0].depth == depth
  {
    if ns != [] {
      OutlineDepths(ns[0].children, depth + 1, cut || Blocked(ns[0]));
      OutlineDepths(ns[1..], depth, cut);
    }
  }

  lemma AboveShifted(front: seq<Item>, items: seq<Item>, j: nat, i: nat)
    requires i < |items|
    ensures Above(front + items, |front| + j, |front| + i) <==> Above(items, j, i)
  {
    var all := front + items;
    if Above(items, j, i) {
      forall k | |front| + j < k <= |front| + i ensures all[k].depth > all[|front| + j].depth {
        assert all[k] == items[k - |front|];
      }
    }
    if Above(all, |front| + j, |front| + i) {
      forall k | j < k <= i ensures items[k].depth > items[j].depth {
        assert all[|front| + k] == items[k];
      }
    }
  }

  /** An item further on is hidden if it is hidden among `items`, or below something unwanted in `front`. */
  lemma HiddenShifted(front: seq<Item>, items: seq<Item>, i: nat)
    requires i < |items|
    ensures Hidden(front + items, |front| + i) <==>
            Hidden(items, i) ||
            exists j: nat :: j < |front| && Above(front + items, j, |front| + i) && Unwanted(front[j])
  {
    var all := front + items;
    forall j: nat | j < |items| ensures Above(all, |front| + j, |front| + i) <==> Above(items, j, i) {
      AboveShifted(front, items, j, i);
    }
    if Hidden(items, i) {
      var j: nat :| Above(items, j, i) && Unwanted(items[j]);
      assert all[|front| + j] == items[j];
    }
    if Hidden(all, |front| + i) {
      var j: nat :| Above(all, j, |front| + i) && Unwanted(all[j]);
      if j >= |front| {
        assert all[j] == items[j - |front|] && Above(items, j - |front|, i);
      }
    }
  }

  /** An item that starts again at the depth of everything before it is not below any of it, nor is what follows. */
  lemma HiddenBehind(front: seq<Item>, items: seq<Item>, i: nat, depth: nat)
    requires i < |items| && items[0].depth == depth && forall x :: x in front ==> x.depth >= depth
    ensures Hidden(front + items, |front| + i) <==> Hidden(items, i)
  {
    var all := front + items;
    var at := |front| + i;
    HiddenShifted(front, items, i);
    forall j: nat | j < |front| ensures !Above(all, j, at) {
      assert all[j] in front && all[|front|] == items[0];
    }
  }

  /** Everything deeper that follows an item at once is below it. */
  lemma HiddenBelow(head: Item, items: seq<Item>, i: nat)
    requires i < |items| && forall x :: x in items ==> x.depth > head.depth
    ensures Hidden([head] + items, i + 1) <==> Unwanted(head) || Hidden(items, i)
  {
    var all := [head] + items;
    HiddenShifted([head], items, i);
    assert Above(all, 0, i + 1) by {
      assert forall k :: 0 < k <= i + 1 ==> all[k] in items;
    }
  }

  /** What follows an item does not matter to it. */
  lemma HiddenBefore(items: seq<Item>, more: seq<Item>, i: nat)
    requires i < |items|
    ensures Hidden(items + more, i) <==> Hidden(items, i)
  {
    var all := items + more;
    forall j: nat | j <= i ensures Above(all, j, i) <==> Above(items, j, i) {
      assert forall k :: j <= k <= i ==> all[k] == items[k];
    }
    if Hidden(items, i) {
      var j: nat :| Above(items, j, i) && Unwanted(items[j]);
      assert all[j] == items[j];
    }
  }

  lemma HeadHidden(head: Item)
    ensures Hidden([head], 0) <==> Unwanted(head)
  {
    assert Above([head], 0, 0) && [head][0] == head;
  }

  lemma HiddenInFront(head: Item, below: seq<Item>, rest: seq<Item>, i: nat)
    requires i <= |below| && forall x :: x in below ==> x.depth > head.depth
    ensures Hidden([head] + below + rest, i) <==> Unwanted(head) || (i > 0 && Hidden(below, i - 1))
  {
    HiddenBefore([head] + below, rest, i);
    if i == 0 {
      HiddenBefore([head], below, 0);
      HeadHidden(head);
    } else {
      HiddenBelow(head, below, i - 1);
    }
  }

  ghost predicate CutIfHidden(items: seq<Item>, cut: bool)
  {
    forall i :: 0 <= i < |items| ==> (items[i].cut <==> cut || Hidden(items, i))
  }

  lemma CutStep(head: Item, below: seq<Item>, rest: seq<Item>, cut: bool)
    requires forall x :: x in below ==> x.depth > head.depth
    requires rest != [] ==> rest[0].depth == head.depth
    requires head.cut <==> cut || Unwanted(head)
    requires CutIfHidden(below, head.cut) && CutIfHidden(rest, cut)
    ensures CutIfHidden([head] + below + rest, cut)
  {
    var front := [head] + below;
    var all := front + rest;
    forall i | 0 <= i < |all| ensures all[i].cut <==> cut || Hidden(all, i) {
      if i < |front| {
        HiddenInFront(head, below, rest, i);
      } else {
        HiddenBehind(front, rest, i - |front|, head.depth);
      }
    }
  }

  /** Exactly the hidden items are marked as cut. */
  lemma {:induction false} CutIsHidden(ns: seq<Node>, depth: nat, cut: bool)
    ensures CutIfHidden(Outline(ns, depth, cut), cut)
  {
    if ns != [] {
      var n := ns[0];
      var gone := cut || Blocked(n);
      CutIsHidden(n.children, depth + 1, gone);
      CutIsHidden(ns[1..], depth, cut);
      OutlineDepths(n.children, depth + 1, gone);
      OutlineDepths(ns[1..], depth, cut);
      CutStep(Item(depth, n.element, n.data, n.attrs, gone), Outline(n.children, depth + 1, gone),
              Outline(ns[1..], depth, cut), cut);
    }
  }

  /** The item `j` is what is shown of `i`. */
  ghost predicate ShownAs(load: bool, hosted: HostCheck, i: Item, j: Item)
  {
    && j.depth == i.depth && j.element == i.element && j.data == i.data
    && if i.element then exists at :: Cleaned(i.data, load, hosted, i.attrs, j.attrs, at) else j.attrs == i.attrs
  }

  /** Shown are exactly the items that are not hidden, at the places `at`, in their order. */
  ghost predicate Shows(load: bool, hosted: HostCheck, items: seq<Item>, out: seq<Item>, at: seq<nat>)
  {
    && Positions(at, |items|) && |out| == |at|
    && (forall i :: 0 <= i < |items| ==> (i in at <==> !Hidden(items, i)))
    && (forall k :: 0 <= k < |at| ==> ShownAs(load, hosted, items[at[k]], out[k]))
  }

  lemma FateShows(load: bool, hosted: HostCheck, i: Item)
    requires Fate(load, hosted, i).Some?
    ensures ShownAs(load, hosted, i, Fate(load, hosted, i).value)
  {
    if i.element {
      var at := RewriteIsCleaned(i.data, load, hosted, i.attrs);
    }
  }

  /**
   * What the rewrite comes to, in document order: gone are the elements of eight kinds and all below them, and of
   * every other element each attribute is kept, trimmed or dropped by its own name and value.
   */
  lemma RewriteShows(root: Node, load: bool, hosted: HostCheck) returns (at: seq<nat>)
    ensures var out := RemoveUnsafe(root, load, hosted);
            Shows(load, hosted, Outline(root.children, 0, false), Outline(out.children, 0, false), at)
  {
    var items := Outline(root.children, 0, false);
    var f := i => Fate(load, hosted, i);
    KeepsUnblocked(root.children, 0, load, hosted);
    at := FilterMapAt(items, f, |items|);
    CutIsHidden(root.children, 0, false);
    assert forall i :: 0 <= i < |items| ==> (i in at <==> f(items[i]).Some?);
    forall k | 0 <= k < |at| ensures ShownAs(load, hosted, items[at[k]], Survivors(items, load, hosted)[k]) {
      FateShows(load, hosted, items[at[k]]);
    }
  }

  /** The root stays as it is, and below it exactly what is not hidden is shown. */
  ghost predicate MadeSafe(load: bool, hosted: HostCheck, root: Node, out: Node)
  {
    && out.element == root.element && out.data == root.data && out.attrs == root.attrs
    && exists at :: Shows(load, hosted, Outline(root.children, 0, false), Outline(out.children, 0, false), at)
  }

  lemma RewriteMakesSafe(root: Node, load: bool, hosted: HostCheck)
    ensures MadeSafe(load, hosted, root, RemoveUnsafe(root, load, hosted))
  {
    var at := RewriteShows(root, load, hosted);
  }

  /** An attribute that can be shown. */
  ghost predicate Harmless(data: string, load: bool, hosted: HostCheck, a: Attribute)
  {
    && !Begins(a.key, "on") && !Reads(a.key, "srcset")
    && (Reads(a.key, "src") ==> load && data == "img" && hosted(a.val))
    && (Reads(a.key, "href") ==> data == "a" && MayLink(a.val))
    && (Reads(a.key, "target") || Reads(a.key, "rel") ==>
          data == "a" && (a == Attribute("target", "_blank") || a == Attribute("rel", "noopener noreferrer")))
  }

  lemma BecomesHarmless(data: string, load: bool, hosted: HostCheck, a: Attribute, b: Attribute)
    requires Becomes(data, load, hosted, a, b)
    ensures Harmless(data, load, hosted, b)
  {
    assert "src"[0] == 's' && "on"[0] == 'o' && "rel"[0] == 'r' && |"src"| == 3;
  }

  lemma AddedHarmless(load: bool, hosted: HostCheck)
    ensures Harmless("a", load, hosted, Attribute("target", "_blank"))
    ensures Harmless("a", load, hosted, Attribute("rel", "noopener noreferrer"))
  {
    assert "target"[0] == 't' && "rel"[0] == 'r' && "on"[0] == 'o' && "src"[0] == 's' && "srcset"[0] == 's';
    assert |"target"| == 6 && |"rel"| == 3 && |"href"| == 4;
  }

  lemma CleanedHarmless(data: string, load: bool, hosted: HostCheck, attrs: seq<Attribute>, out: seq<Attribute>,
                        at: seq<nat>)
    requires Cleaned(data, load, hosted, attrs, out, at)
    ensures forall a :: a in out ==> Harmless(data, load, hosted, a)
  {
    forall k | 0 <= k < |out| ensures Harmless(data, load, hosted, out[k]) {
      if k < |at| {
        BecomesHarmless(data, load, hosted, attrs[at[k]], out[k]);
      } else {
        assert out[k] == out[|at|..][k - |at|];
        AddedHarmless(load, hosted);
      }
    }
  }

  /** No element of the eight kinds and no unsafe attribute is left anywhere below the root. */
  lemma NothingUnsafeLeft(root: Node, load: bool, hosted: HostCheck)
    ensures forall i :: i in Outline(RemoveUnsafe(root, load, hosted).children, 0, false) && i.element ==>
              !Unwanted(i) && forall a :: a in i.attrs ==> Harmless(i.data, load, hosted, a)
  {
    var items, out := Outline(root.children, 0, false), Outline(RemoveUnsafe(root, load, hosted).children, 0, false);
    var at := RewriteShows(root, load, hosted);
    forall k | 0 <= k < |out| && out[k].element
      ensures !Unwanted(out[k]) && forall a :: a in out[k].attrs ==> Harmless(out[k].data, load, hosted, a)
    {
      assert ShownAs(load, hosted, items[at[k]], out[k]);
      assert at[k] in at && Above(items, at[k], at[k]);
      var kept :| Cleaned(out[k].data, load, hosted, items[at[k]].attrs, out[k].attrs, kept);
      CleanedHarmless(out[k].data, load, hosted, items[at[k]].attrs, out[k].attrs, kept);
    }
  }
}
