/**
 * Href extraction: the depth-first walk over a parsed HTML document that
 * collects, in document order, at most one href per anchor element.
 */
module Html {
  import opened Strings

  datatype Attribute = Attribute(key: string, val: string)

  /** A node of the tree html.Parse returns: element or not, tag, attributes in order, children in order. */
  datatype Node = Node(isElement: bool, tag: string, attrs: seq<Attribute>, children: seq<Node>)

  predicate IsAnchor(n: Node) {
    n.isElement && n.tag == "a"
  }

  /** An href attribute whose trimmed value is neither empty nor a fragment link. */
  predicate Accepted(a: Attribute) {
    a.key == "href" && Usable(TrimSpace(a.val))
  }

  /** A trimmed href value that is neither empty nor a fragment link. */
  predicate Usable(v: string) {
    v != "" && v[0] != '#'
  }

  /** `attrs[i]` is the first accepted attribute. */
  predicate FirstAcceptedAt(attrs: seq<Attribute>, i: int) {
    0 <= i < |attrs| && Accepted(attrs[i]) && forall j :: 0 <= j < i ==> !Accepted(attrs[j])
  }

  /**
   * The attribute loop of one anchor: href attributes that trim to nothing
   * or start with `#` are skipped, the first other one is sent and ends the
   * loop.
   */
  function FirstHref(attrs: seq<Attribute>): (r: seq<string>)
    ensures |r| <= 1
    ensures r == [] <==> forall i :: 0 <= i < |attrs| ==> !Accepted(attrs[i])
    ensures r != [] ==> exists i :: FirstAcceptedAt(attrs, i) && r[0] == TrimSpace(attrs[i].val)
  {
    if attrs == [] then []
    else if attrs[0].key != "href" then
      var r := FirstHref(attrs[1..]);
      AcceptedShift(attrs, r);
      r
    else
      var val := TrimSpace(attrs[0].val);
      if val == "" || HasPrefix(val, "#") then
        var r := FirstHref(attrs[1..]);
        AcceptedShift(attrs, r);
        r
      else
        assert FirstAcceptedAt(attrs, 0);
        [val]
  }

  /** When the head is not accepted, the verdict on the tail carries over to the whole list. */
  lemma AcceptedShift(attrs: seq<Attribute>, r: seq<string>)
    requires attrs != [] && !Accepted(attrs[0])
    requires r == [] <==> forall i :: 0 <= i < |attrs| - 1 ==> !Accepted(attrs[1..][i])
    requires r != [] ==> exists i :: FirstAcceptedAt(attrs[1..], i) && r[0] == TrimSpace(attrs[1..][i].val)
    ensures r == [] <==> forall i :: 0 <= i < |attrs| ==> !Accepted(attrs[i])
    ensures r != [] ==> exists i :: FirstAcceptedAt(attrs, i) && r[0] == TrimSpace(attrs[i].val)
  {
    if r != [] {
      var i :| FirstAcceptedAt(attrs[1..], i) && r[0] == TrimSpace(attrs[1..][i].val);
      assert FirstAcceptedAt(attrs, i + 1);
    } else {
      forall i | 0 < i < |attrs| ensures !Accepted(attrs[i]) {
        assert attrs[i] == attrs[1..][i - 1];
      }
    }
  }

  /** What a single node sends on its own. */
  function Emit(n: Node): seq<string> {
    if IsAnchor(n) then FirstHref(n.attrs) else []
  }

  /** The walk over a sequence of sibling trees: each node, then its children, then its later siblings. */
  function HrefsOf(ns: seq<Node>): seq<string>
    decreases ns
  {
    if ns == [] then [] else Emit(ns[0]) + HrefsOf(ns[0].children) + HrefsOf(ns[1..])
  }

  /** Everything the walk sends for a document, in the order it is sent. */
  function Hrefs(doc: Node): seq<string> {
    HrefsOf([doc])
  }

  /** The nodes of a sequence of sibling trees in pre-order. */
  function PreorderOf(ns: seq<Node>): seq<Node>
    decreases ns
  {
    if ns == [] then [] else [ns[0]] + PreorderOf(ns[0].children) + PreorderOf(ns[1..])
  }

  /** What each node of a flat list sends on its own, concatenated. */
  function EmitAll(ns: seq<Node>): seq<string> {
    if ns == [] then [] else Emit(ns[0]) + EmitAll(ns[1..])
  }

  lemma {:induction false} EmitAllAppend(a: seq<Node>, b: seq<Node>)
    ensures EmitAll(a + b) == EmitAll(a) + EmitAll(b)
  {
    if a == [] {
      assert a + b == b;
    } else {
      assert (a + b)[1..] == a[1..] + b;
      EmitAllAppend(a[1..], b);
    }
  }

  /** The walk sends, for every node in pre-order, exactly what that node sends on its own. */
  lemma {:induction false} WalkIsPreorder(ns: seq<Node>)
    ensures HrefsOf(ns) == EmitAll(PreorderOf(ns))
    decreases ns
  {
    if ns != [] {
      WalkIsPreorder(ns[0].children);
      WalkIsPreorder(ns[1..]);
      var p := PreorderOf(ns[0].children);
      var q := PreorderOf(ns[1..]);
      EmitAllAppend([ns[0]] + p, q);
      EmitAllAppend([ns[0]], p);
      assert EmitAll([ns[0]]) == Emit(ns[0]) by {
        assert [ns[0]][1..] == [];
      }
    }
  }

  /** A node sends one value exactly when it is an anchor with an accepted href. */
  predicate Sends(n: Node) {
    IsAnchor(n) && exists i :: 0 <= i < |n.attrs| && Accepted(n.attrs[i])
  }


  function CountSending(ns: seq<Node>): nat {
    if ns == [] then 0 else (if Sends(ns[0]) then 1 else 0) + CountSending(ns[1..])
  }

  lemma {:induction false} EmitAllLength(ns: seq<Node>)
    ensures |EmitAll(ns)| == CountSending(ns)
  {
    if ns != [] {
      EmitAllLength(ns[1..]);
    }
  }

  /** The number of hrefs sent is the number of pre-order nodes that are anchors with an accepted href. */
  lemma HrefsCount(doc: Node)
    ensures |Hrefs(doc)| == CountSending(PreorderOf([doc]))
  {
    WalkIsPreorder([doc]);
    EmitAllLength(PreorderOf([doc]));
  }

  /** Every value sent is non-empty, is not a fragment link and has no white space at either end. */
  lemma {:induction false} HrefsAreClean(ns: seq<Node>)
    ensures forall v :: v in HrefsOf(ns) ==> Usable(v) && Trimmed(v)
    decreases ns
  {
    if ns != [] {
      HrefsAreClean(ns[0].children);
      HrefsAreClean(ns[1..]);
      EmitIsClean(ns[0]);
      assert HrefsOf(ns) == Emit(ns[0]) + HrefsOf(ns[0].children) + HrefsOf(ns[1..]);
    }
  }

  lemma EmitIsClean(n: Node)
    ensures forall v :: v in Emit(n) ==> Usable(v) && Trimmed(v)
  {
    var e := Emit(n);
    if e != [] {
      var i :| FirstAcceptedAt(n.attrs, i) && e[0] == TrimSpace(n.attrs[i].val);
      TrimSpaceSpec(n.attrs[i].val);
      assert e == [e[0]];
    }
  }

  /** A tree without anchors sends nothing, however deep the walk goes. */
  lemma {:induction false} NoAnchorsNoHrefs(ns: seq<Node>)
    requires forall n :: n in PreorderOf(ns) ==> !IsAnchor(n)
    ensures HrefsOf(ns) == []
  {
    WalkIsPreorder(ns);
    EmitAllEmpty(PreorderOf(ns));
  }

  lemma {:induction false} EmitAllEmpty(ns: seq<Node>)
    requires forall n :: n in ns ==> !IsAnchor(n)
    ensures EmitAll(ns) == []
  {
    if ns != [] {
      assert ns[0] in ns;
      assert forall n :: n in ns[1..] ==> n in ns;
      EmitAllEmpty(ns[1..]);
    }
  }
}
