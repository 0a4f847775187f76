// Memory Maneuver: a licence file is a flat list of numbers encoding a
// tree. Each node is a header (number of children, number of metadata
// entries), then its children, then its metadata entries. Part 1 adds up
// every metadata entry; part 2 computes the root's value, in which the
// metadata entries of a node with children are 1-based references to them.

module MemoryManeuver {
  import opened Wrappers
  import opened SeqFolds

  /** The node as the reader fills it in: the two header counts, and the
      children and metadata, which stay absent while their count is 0. */
  datatype Node = Node(nbChildren: nat, nbMetadata: nat, children: Children, metadata: Option<seq<nat>>)

  /** The `Option<Vec<Node>>` of children. */
  datatype Children = NoChildren | Children(nodes: seq<Node>)

  /** `Node::new`. */
  const Fresh := Node(0, 0, NoChildren, None)

  /** `set_nb_children`: records the count and, when it is positive,
      allocates that many fresh children. */
  function SetNbChildren(n: Node, count: nat): (r: Node)
    ensures r.nbChildren == count && r.nbMetadata == n.nbMetadata && r.metadata == n.metadata
    ensures count > 0 ==> r.children.Children? && |r.children.nodes| == count
                          && forall i :: 0 <= i < count ==> r.children.nodes[i] == Fresh
    ensures count == 0 ==> r.children == n.children
  {
    n.(nbChildren := count, children := if count > 0 then Children(seq(count, _ => Fresh)) else n.children)
  }

  /** `set_nb_metadata`: records the count and, when it is positive,
      allocates that many zero entries. */
  function SetNbMetadata(n: Node, count: nat): (r: Node)
    ensures r.nbMetadata == count && r.nbChildren == n.nbChildren && r.children == n.children
    ensures count > 0 ==> r.metadata.Some? && |r.metadata.value| == count
                          && forall i :: 0 <= i < count ==> r.metadata.value[i] == 0
    ensures count == 0 ==> r.metadata == n.metadata
  {
    n.(nbMetadata := count, metadata := if count > 0 then Some(seq(count, _ => 0)) else n.metadata)
  }

  // ---------------------------------------------------------------------
  // What reading a node from the shared stream of numbers yields

  /** A node read from the stream and the position of the first number
      not consumed. */
  datatype Parsed = Parsed(node: Node, next: nat)

  /** Several children read one after the other. */
  datatype KidsParsed = KidsParsed(nodes: seq<Node>, next: nat)

  /** The metadata after reading and the position after it. */
  datatype MetaRead = MetaRead(metadata: Option<seq<nat>>, next: nat)

  /** A node read from `pos`: the child count, then (if the stream goes
      on) the metadata count, the children and the metadata. The stream may
      end anywhere, leaving the node as far as it was filled in. */
  function ParseNode(input: seq<nat>, pos: nat): (r: Parsed)
    requires pos <= |input|
    ensures pos <= r.next <= |input|
    ensures pos < |input| ==> r.next > pos
    decreases |input| - pos, 2
  {
    if pos == |input| then Parsed(Fresh, pos)
    else if pos + 1 == |input| then Parsed(SetNbChildren(Fresh, input[pos]), pos + 1)
    else
      var header := Header(input, pos);
      var meta := ReadMeta(input, header.next, header.node.metadata);
      Parsed(header.node.(metadata := meta.metadata), meta.next)
  }

  /** The two counts read and the children read after them; the metadata
      is allocated but not read yet. */
  function Header(input: seq<nat>, pos: nat): (r: Parsed)
    requires pos + 2 <= |input|
    ensures pos + 2 <= r.next <= |input|
    decreases |input| - pos, 1
  {
    var blank := SetNbMetadata(SetNbChildren(Fresh, input[pos]), input[pos + 1]);
    match blank.children
    case NoChildren => Parsed(blank, pos + 2)
    case Children(cs) =>
      var kids := ParseKids(input, pos + 2, |cs|);
      Parsed(blank.(children := Children(kids.nodes)), kids.next)
  }

  /** `count` children read one after the other from `pos`. */
  function ParseKids(input: seq<nat>, pos: nat, count: nat): (r: KidsParsed)
    requires pos <= |input|
    ensures |r.nodes| == count && pos <= r.next <= |input|
    decreases |input| - pos, 3, count
  {
    if count == 0 then KidsParsed([], pos)
    else
      var prev := ParseKids(input, pos, count - 1);
      var last := ParseNode(input, prev.next);
      KidsParsed(prev.nodes + [last.node], last.next)
  }

  /** The metadata phase. With entries allocated, numbers fill them in
      order until all are filled or the stream ends; with none allocated,
      one number is still taken from the stream and dropped. */
  function ReadMeta(input: seq<nat>, pos: nat, meta: Option<seq<nat>>): (r: MetaRead)
    requires pos <= |input|
    ensures pos <= r.next <= |input|
    ensures meta.Some? ==> r.metadata.Some? && |r.metadata.value| == |meta.value|
    ensures meta.None? ==> r.metadata.None?
  {
    match meta
    case None => MetaRead(None, if pos < |input| then pos + 1 else pos)
    case Some(ms) =>
      var n := if |ms| <= |input| - pos then |ms| else |input| - pos;
      MetaRead(Some(input[pos..pos + n] + ms[n..]), pos + n)
  }

  // ---------------------------------------------------------------------
  // `process_node`

  /** The phase `process_node` is in. */
  datatype InputType = NbChildren | NbMetadataThenChildren | ReadMetadata

  /** `process_node` on a fresh node: numbers are taken from the stream one
      by one, the phase deciding what each one means, and the children are
      read by recursive calls on the same stream. */
  method ProcessNode(input: seq<nat>, start: nat) returns (node: Node, pos: nat)
    requires start <= |input|
    ensures Parsed(node, pos) == ParseNode(input, start)
    decreases |input| - start, 2
  {
    node := Fresh;
    pos := start;
    var inputType := NbChildren;
    var which := 0;
    ghost var metaStart: nat := start + 2;
    ghost var done := false;
    while pos < |input|
      invariant start <= pos <= |input| && !done
      invariant inputType != ReadMetadata ==> which == 0
      invariant inputType == NbChildren ==> pos == start && node == Fresh
      invariant inputType == NbMetadataThenChildren ==> pos == start + 1 && node == SetNbChildren(Fresh, input[start])
      invariant inputType == ReadMetadata ==> ReadingMeta(input, start, metaStart, node, pos, which)
      decreases |input| - pos
    {
      var v := input[pos];
      pos := pos + 1;
      match inputType {
        case NbChildren =>
          node := SetNbChildren(node, v);
          inputType := NbMetadataThenChildren;
        case NbMetadataThenChildren =>
          node := SetNbMetadata(node, v);
          if node.children.Children? {
            var kids, after := ProcessChildren(input, pos, node.children.nodes);
            node := node.(children := Children(kids));
            pos := after;
          }
          metaStart := pos;
          inputType := ReadMetadata;
          StartReading(input, start, node, pos);
        case ReadMetadata =>
          if node.metadata.Some? {
            var ms := node.metadata.value;
            ghost var blank := Header(input, start).node.metadata.value;
            FillEntry(input, metaStart, ms, blank, which, v);
            node := node.(metadata := Some(ms[which := v]));
            which := which + 1;
            if which == |ms| {
              AllRead(input, start, metaStart, node, pos);
              done := true;
              break;
            }
          } else {
            NothingToRead(input, start, metaStart, node, pos);
            done := true;
            break;
          }
      }
    }
    if !done && inputType == ReadMetadata {
      EndOfStream(input, start, metaStart, node, pos, which);
    }
  }

  /** The children of a node, read in turn by `process_node` on each
      fresh child. */
  method ProcessChildren(input: seq<nat>, start: nat, children: seq<Node>) returns (kids: seq<Node>, pos: nat)
    requires start <= |input|
    requires forall i :: 0 <= i < |children| ==> children[i] == Fresh
    ensures KidsParsed(kids, pos) == ParseKids(input, start, |children|)
    decreases |input| - start, 3
  {
    kids := children;
    pos := start;
    for i := 0 to |children|
      invariant |kids| == |children| && start <= pos <= |input|
      invariant KidsParsed(kids[..i], pos) == ParseKids(input, start, i)
    {
      var child, after := ProcessNode(input, pos);
      assert kids[i := child][..i + 1] == kids[..i] + [child];
      kids := kids[i := child];
      pos := after;
    }
    assert kids[..|children|] == kids;
  }

  /** The state of `process_node` in the metadata phase: the header is
      read, the metadata read so far overwrites the first allocated
      entries, and a node without metadata has read nothing yet. */
  ghost predicate ReadingMeta(input: seq<nat>, start: nat, metaStart: nat, node: Node, pos: nat, which: nat) {
    start + 2 <= |input|
    && metaStart == Header(input, start).next && pos == metaStart + which <= |input|
    && var h := Header(input, start).node;
    node.nbChildren == h.nbChildren && node.nbMetadata == h.nbMetadata && node.children == h.children
    && match h.metadata
       case None => which == 0 && node.metadata.None?
       case Some(ms) => which < |ms| && node.metadata == Some(input[metaStart..pos] + ms[which..])
  }

  /** Entering the metadata phase. */
  lemma StartReading(input: seq<nat>, start: nat, node: Node, pos: nat)
    requires start + 2 <= |input|
    requires Header(input, start) == Parsed(node, pos)
    ensures ReadingMeta(input, start, pos, node, pos, 0)
  {
    if node.metadata.Some? {
      assert input[pos..pos] + node.metadata.value[0..] == node.metadata.value;
    }
  }

  /** Storing the number read into the next metadata entry. */
  lemma FillEntry(input: seq<nat>, metaStart: nat, ms: seq<nat>, blank: seq<nat>, which: nat, v: nat)
    requires which < |blank| && metaStart + which < |input| && v == input[metaStart + which]
    requires ms == input[metaStart..metaStart + which] + blank[which..]
    ensures ms[which := v] == input[metaStart..metaStart + which + 1] + blank[which + 1..]
  {
  }

  /** Leaving the loop by `break` once every blank entry is filled. */
  lemma AllRead(input: seq<nat>, start: nat, metaStart: nat, node: Node, pos: nat)
    requires start + 2 <= |input| && metaStart == Header(input, start).next
    requires var h := Header(input, start).node;
      node.nbChildren == h.nbChildren && node.nbMetadata == h.nbMetadata && node.children == h.children
      && h.metadata.Some? && pos == metaStart + |h.metadata.value| <= |input|
      && node.metadata == Some(input[metaStart..pos] + h.metadata.value[|h.metadata.value|..])
    ensures Parsed(node, pos) == ParseNode(input, start)
  {
  }

  /** Leaving the loop by `break` on a node without metadata: one number
      has been taken and dropped. */
  lemma NothingToRead(input: seq<nat>, start: nat, metaStart: nat, node: Node, pos: nat)
    requires start + 2 <= |input| && metaStart == Header(input, start).next
    requires var h := Header(input, start).node;
      node.nbChildren == h.nbChildren && node.nbMetadata == h.nbMetadata && node.children == h.children
      && h.metadata.None? && node.metadata.None? && pos == metaStart + 1 <= |input|
    ensures Parsed(node, pos) == ParseNode(input, start)
  {
  }

  /** Leaving the loop because the stream ended in the metadata phase. */
  lemma EndOfStream(input: seq<nat>, start: nat, metaStart: nat, node: Node, pos: nat, which: nat)
    requires ReadingMeta(input, start, metaStart, node, pos, which) && pos == |input|
    ensures Parsed(node, pos) == ParseNode(input, start)
  {
  }

  // ---------------------------------------------------------------------
  // Part 1: `count_metadata`

  /** The node's own metadata entries added up (`iter().sum()`), 0 when
      it has none. */
  function OwnSum(n: Node): nat {
    match n.metadata
    case None => 0
    case Some(ms) => Sum(ms)
  }

  /** Every metadata entry of the node and of all nodes under it. */
  function MetadataTotal(n: Node): nat
    decreases n, 1
  {
    OwnSum(n) + match n.children
                case NoChildren => 0
                case Children(cs) => KidsTotal(cs)
  }

  function KidsTotal(cs: seq<Node>): nat
    decreases cs, 0
  {
    if cs == [] then 0 else KidsTotal(cs[..|cs| - 1]) + MetadataTotal(cs[|cs| - 1])
  }

  /** `count_metadata`: the node's own sum, then each child's count added
      in turn. */
  method CountMetadata(node: Node) returns (sum: nat)
    ensures sum == MetadataTotal(node)
    decreases node
  {
    sum := 0;
    if node.metadata.Some? {
      sum := Sum(node.metadata.value);
    }
    if node.children.Children? {
      var cs := node.children.nodes;
      for i := 0 to |cs|
        invariant sum == OwnSum(node) + KidsTotal(cs[..i])
      {
        var c := CountMetadata(cs[i]);
        assert cs[..i + 1][..i] == cs[..i];
        sum := sum + c;
      }
      assert cs[..|cs|] == cs;
    }
  }

  // ---------------------------------------------------------------------
  // Part 2: `count_ref_metadata`

  /** The value of a node: a node without children is worth its own
      metadata sum; otherwise each metadata entry `m` with
      `1 <= m <= children` adds the value of child `m`, and other entries
      add nothing. */
  function RefValue(n: Node): nat
    decreases n, 1
  {
    match n.children
    case NoChildren => OwnSum(n)
    case Children(cs) =>
      match n.metadata
      case None => 0
      case Some(ms) => RefSum(cs, ms)
  }

  function RefSum(cs: seq<Node>, ms: seq<nat>): nat
    decreases cs, 0, |ms|
  {
    if ms == [] then 0
    else
      var m := ms[|ms| - 1];
      RefSum(cs, ms[..|ms| - 1]) + if 1 <= m <= |cs| then RefValue(cs[m - 1]) else 0
  }

  /** The condition under which `count_ref_metadata` does not panic: the
      source computes `m_id - 1` in unsigned integers, so no metadata entry
      of a node with children that it visits may be 0. */
  predicate Evaluable(n: Node)
    decreases n, 1
  {
    match n.children
    case NoChildren => true
    case Children(cs) =>
      match n.metadata
      case None => true
      case Some(ms) => RefsEvaluable(cs, ms)
  }

  predicate RefsEvaluable(cs: seq<Node>, ms: seq<nat>)
    decreases cs, 0, |ms|
  {
    ms == []
    || (var m := ms[|ms| - 1];
        RefsEvaluable(cs, ms[..|ms| - 1]) && m >= 1 && (m <= |cs| ==> Evaluable(cs[m - 1])))
  }

  lemma {:induction false} RefsEvaluableAt(cs: seq<Node>, ms: seq<nat>, i: nat)
    requires RefsEvaluable(cs, ms) && i < |ms|
    ensures ms[i] >= 1 && (ms[i] <= |cs| ==> Evaluable(cs[ms[i] - 1]))
    decreases |ms|
  {
    if i < |ms| - 1 {
      RefsEvaluableAt(cs, ms[..|ms| - 1], i);
    }
  }

  /** `count_ref_metadata`, with its cache of child values by metadata
      entry. `or_insert` evaluates its argument every time, so the cache
      only ever returns the value just computed. */
  method CountRefMetadata(node: Node) returns (sum: nat)
    requires Evaluable(node)
    ensures sum == RefValue(node)
    decreases node
  {
    sum := 0;
    match node.children {
      case Children(children) =>
        var s: map<nat, nat> := map[];
        if node.metadata.Some? {
          var ms := node.metadata.value;
          for i := 0 to |ms|
            invariant sum == RefSum(children, ms[..i])
            invariant forall m :: m in s ==> 1 <= m <= |children| && s[m] == RefValue(children[m - 1])
          {
            var mId := ms[i];
            RefsEvaluableAt(children, ms, i);
            assert ms[..i + 1][..i] == ms[..i];
            if mId - 1 < |children| {
              var value := CountRefMetadata(children[mId - 1]);
              if mId !in s {
                s := s[mId := value];
              }
              sum := sum + s[mId];
            }
          }
          assert ms[..|ms|] == ms;
        }
      case NoChildren =>
        if node.metadata.Some? {
          sum := Sum(node.metadata.value);
        }
    }
  }

  // ---------------------------------------------------------------------
  // The licence tree the numbers encode

  /** A node of the licence: its children and its metadata entries. */
  datatype Tree = Tree(children: seq<Tree>, metadata: seq<nat>)

  /** The licence as a list of numbers: the two counts, the children's
      encodings in order, the metadata. */
  function Encode(t: Tree): seq<nat>
    decreases t, 1
  {
    [|t.children|, |t.metadata|] + EncodeAll(t.children) + t.metadata
  }

  function EncodeAll(ts: seq<Tree>): seq<nat>
    decreases ts, 0
  {
    if ts == [] then [] else EncodeAll(ts[..|ts| - 1]) + Encode(ts[|ts| - 1])
  }

  /** Every node carries at least one metadata entry, as licences do. */
  predicate WellFormed(t: Tree)
    decreases t, 1
  {
    |t.metadata| > 0 && AllWellFormed(t.children)
  }

  predicate AllWellFormed(ts: seq<Tree>)
    decreases ts, 0
  {
    ts == [] || (AllWellFormed(ts[..|ts| - 1]) && WellFormed(ts[|ts| - 1]))
  }

  /** The node `process_node` should build for a licence node. */
  function Embed(t: Tree): Node
    decreases t, 1
  {
    Node(|t.children|, |t.metadata|,
         if |t.children| > 0 then Children(EmbedAll(t.children))
         else NoChildren,
         if |t.metadata| > 0 then Some(t.metadata) else None)
  }

  /** The three consecutive parts of a stretch of the stream. */
  lemma Slices(input: seq<nat>, pos: nat, a: seq<nat>, b: seq<nat>, c: seq<nat>)
    requires pos + |a| + |b| + |c| <= |input| && input[pos..pos + |a| + |b| + |c|] == a + b + c
    ensures input[pos..pos + |a|] == a
    ensures input[pos + |a|..pos + |a| + |b|] == b
    ensures input[pos + |a| + |b|..pos + |a| + |b| + |c|] == c
  {
    forall k | 0 <= k < |a| ensures input[pos + k] == a[k] {
      assert input[pos + k] == input[pos..pos + |a| + |b| + |c|][k] == (a + b + c)[k];
    }
    forall k | 0 <= k < |b| ensures input[pos + |a| + k] == b[k] {
      assert input[pos + |a| + k] == input[pos..pos + |a| + |b| + |c|][|a| + k] == (a + b + c)[|a| + k];
    }
    forall k | 0 <= k < |c| ensures input[pos + |a| + |b| + k] == c[k] {
      assert input[pos + |a| + |b| + k] == input[pos..pos + |a| + |b| + |c|][|a| + |b| + k] == (a + b + c)[|a| + |b| + k];
    }
  }

  function EmbedAll(ts: seq<Tree>): (r: seq<Node>)
    ensures |r| == |ts|
    decreases ts, 0
  {
    if ts == [] then [] else EmbedAll(ts[..|ts| - 1]) + [Embed(ts[|ts| - 1])]
  }

  lemma {:induction false} EmbedAllAt(ts: seq<Tree>, i: nat)
    requires i < |ts|
    ensures EmbedAll(ts)[i] == Embed(ts[i])
  {
    if i < |ts| - 1 {
      EmbedAllAt(ts[..|ts| - 1], i);
    }
  }

  /** Reading the encoding of a well-formed tree, followed by anything,
      builds exactly that tree and stops right after its encoding. */
  lemma {:induction false} ParseEncode(t: Tree, input: seq<nat>, pos: nat)
    requires WellFormed(t)
    requires pos + |Encode(t)| <= |input| && input[pos..pos + |Encode(t)|] == Encode(t)
    ensures ParseNode(input, pos) == Parsed(Embed(t), pos + |Encode(t)|)
    decreases t, 2
  {
    var q := pos + 2 + |EncodeAll(t.children)|;
    HeaderEncode(t, input, pos);
    var h := Header(input, pos);
    assert input[q..q + |t.metadata|] + h.node.metadata.value[|t.metadata|..] == t.metadata;
    assert ReadMeta(input, q, h.node.metadata) == MetaRead(Some(t.metadata), q + |t.metadata|);
  }

  /** ... the header and the children come first, ... */
  lemma {:induction false} HeaderEncode(t: Tree, input: seq<nat>, pos: nat)
    requires WellFormed(t)
    requires pos + |Encode(t)| <= |input| && input[pos..pos + |Encode(t)|] == Encode(t)
    ensures Header(input, pos).next == pos + 2 + |EncodeAll(t.children)|
    ensures Header(input, pos).node.(metadata := Embed(t).metadata) == Embed(t)
    ensures Header(input, pos).node.metadata.Some? && |Header(input, pos).node.metadata.value| == |t.metadata|
    ensures input[pos + 2 + |EncodeAll(t.children)|..pos + |Encode(t)|] == t.metadata
    decreases t, 1
  {
    var kidsCode := EncodeAll(t.children);
    var counts := [|t.children|, |t.metadata|];
    Slices(input, pos, counts, kidsCode, t.metadata);
    assert input[pos] == counts[0] && input[pos + 1] == counts[1];
    if |t.children| > 0 {
      ParseEncodeAll(t.children, input, pos + 2);
    }
  }

  lemma ParseKidsLast(input: seq<nat>, pos: nat, count: nat)
    requires pos <= |input| && count > 0
    ensures var prev := ParseKids(input, pos, count - 1);
      var last := ParseNode(input, prev.next);
      ParseKids(input, pos, count) == KidsParsed(prev.nodes + [last.node], last.next)
  {
  }

  lemma EncodeAllLast(ts: seq<Tree>)
    requires ts != []
    ensures EncodeAll(ts) == EncodeAll(ts[..|ts| - 1]) + Encode(ts[|ts| - 1])
  {
  }

  lemma {:induction false} ParseEncodeAll(ts: seq<Tree>, input: seq<nat>, pos: nat)
    requires AllWellFormed(ts)
    requires pos + |EncodeAll(ts)| <= |input| && input[pos..pos + |EncodeAll(ts)|] == EncodeAll(ts)
    ensures ParseKids(input, pos, |ts|).next == pos + |EncodeAll(ts)|
    ensures ParseKids(input, pos, |ts|).nodes == EmbedAll(ts)
    decreases ts, 0
  {
    if ts != [] {
      var init := ts[..|ts| - 1];
      var last := ts[|ts| - 1];
      var initCode := EncodeAll(init);
      var mid := pos + |initCode|;
      EncodeAllLast(ts);
      Slices(input, pos, initCode, Encode(last), []);
      ParseEncodeAll(init, input, pos);
      ParseEncode(last, input, mid);
      var prev := ParseKids(input, pos, |ts| - 1);
      assert prev.next == mid && prev.nodes == EmbedAll(init);
      ParseKidsLast(input, pos, |ts|);
      assert ParseKids(input, pos, |ts|) == KidsParsed(prev.nodes + [Embed(last)], mid + |Encode(last)|);
      assert EmbedAll(ts) == EmbedAll(init) + [Embed(last)];
    } else {
      assert ParseKids(input, pos, 0) == KidsParsed([], pos);
    }
  }

  // ---------------------------------------------------------------------
  // What the two counts compute on a licence

  /** Every metadata entry of the licence, in the order they are listed. */
  function AllMetadata(t: Tree): seq<nat>
    decreases t, 1
  {
    AllMetadataOf(t.children) + t.metadata
  }

  function AllMetadataOf(ts: seq<Tree>): seq<nat>
    decreases ts, 0
  {
    if ts == [] then [] else AllMetadataOf(ts[..|ts| - 1]) + AllMetadata(ts[|ts| - 1])
  }

  /** `count_metadata` on the node built for a licence adds up every
      metadata entry the licence lists. */
  lemma {:induction false} TotalEmbed(t: Tree)
    ensures MetadataTotal(Embed(t)) == Sum(AllMetadata(t))
    decreases t, 1
  {
    SumAppend(AllMetadataOf(t.children), t.metadata);
    if |t.children| > 0 {
      KidsTotalEmbed(t.children);
    }
  }

  lemma {:induction false} KidsTotalEmbed(ts: seq<Tree>)
    ensures KidsTotal(EmbedAll(ts)) == Sum(AllMetadataOf(ts))
    decreases ts, 0
  {
    if ts != [] {
      var k := |ts| - 1;
      KidsTotalEmbed(ts[..k]);
      TotalEmbed(ts[k]);
      SumAppend(AllMetadataOf(ts[..k]), AllMetadata(ts[k]));
      assert (EmbedAll(ts[..k]) + [Embed(ts[k])])[..k] == EmbedAll(ts[..k]);
    }
  }

  /** The value of a licence node, as the licence defines it: a node
      without children is worth the sum of its metadata entries; otherwise
      each entry is a 1-based reference to a child, worth that child's
      value, and an entry that refers to no child is worth nothing. */
  function Value(t: Tree): nat
    decreases t, 1
  {
    if t.children == [] then Sum(t.metadata) else Sum(ReferencedValues(t))
  }

  /** The worth of each metadata entry of a node with children. */
  function ReferencedValues(t: Tree): (r: seq<nat>)
    ensures |r| == |t.metadata|
    decreases t, 0
  {
    seq(|t.metadata|, i requires 0 <= i < |t.metadata| =>
      var m := t.metadata[i];
      if 1 <= m <= |t.children| then Value(t.children[m - 1]) else 0)
  }

  /** `count_ref_metadata` on the node built for a licence computes the
      licence's value. */
  lemma {:induction false} RefValueEmbed(t: Tree)
    ensures RefValue(Embed(t)) == Value(t)
    decreases t, 1
  {
    if |t.children| > 0 && |t.metadata| > 0 {
      RefSumEmbed(t, |t.metadata|);
      assert t.metadata[..|t.metadata|] == t.metadata;
      assert ReferencedValues(t)[..|t.metadata|] == ReferencedValues(t);
    }
  }

  lemma {:induction false} RefSumEmbed(t: Tree, k: nat)
    requires 0 < |t.children| && k <= |t.metadata|
    ensures RefSum(Embed(t).children.nodes, t.metadata[..k]) == Sum(ReferencedValues(t)[..k])
    decreases t, 0, k
  {
    if k > 0 {
      var values := ReferencedValues(t);
      var m := t.metadata[k - 1];
      RefSumEmbed(t, k - 1);
      assert t.metadata[..k][..k - 1] == t.metadata[..k - 1];
      if 1 <= m <= |t.children| {
        RefValueEmbed(t.children[m - 1]);
        EmbedAllAt(t.children, m - 1);
      }
      assert values[..k] == values[..k - 1] + [values[k - 1]];
      SumAppend(values[..k - 1], [values[k - 1]]);
    }
  }

  /** Part 1 on an encoded licence: every metadata entry, added up. */
  lemma Part1Answer(t: Tree)
    requires WellFormed(t)
    ensures MetadataTotal(ParseNode(Encode(t), 0).node) == Sum(AllMetadata(t))
  {
    assert Encode(t)[0..|Encode(t)|] == Encode(t);
    ParseEncode(t, Encode(t), 0);
    TotalEmbed(t);
  }

  /** Part 2 on an encoded licence: the root's value. */
  lemma Part2Answer(t: Tree)
    requires WellFormed(t)
    ensures RefValue(ParseNode(Encode(t), 0).node) == Value(t)
  {
    assert Encode(t)[0..|Encode(t)|] == Encode(t);
    ParseEncode(t, Encode(t), 0);
    RefValueEmbed(t);
  }

  /** Why licences need metadata: a child without metadata still takes one
      number in its metadata phase, here its parent's only metadata entry,
      and the parent is left with its blank entry 0. */
  lemma ZeroMetadataSwallows()
    ensures Encode(Tree([Tree([], [])], [5])) == [1, 1, 0, 0, 5]
    ensures ParseNode([1, 1, 0, 0, 5], 0).node.metadata == Some([0])
    ensures ParseNode([1, 1, 0, 0, 5], 0).next == 5
  {
    var input := [1, 1, 0, 0, 5];
    assert EncodeAll([Tree([], [])]) == [0, 0];
    var child := ParseNode(input, 2);
    assert Header(input, 2) == Parsed(Node(0, 0, NoChildren, None), 4);
    assert child == Parsed(Node(0, 0, NoChildren, None), 5);
    assert ParseKids(input, 2, 0) == KidsParsed([], 2);
    assert ParseKids(input, 2, 1) == KidsParsed([child.node], 5);
    var blank := SetNbMetadata(SetNbChildren(Fresh, 1), 1);
    assert blank.children.nodes == [Fresh] by {
      assert blank.children.nodes[0] == Fresh;
    }
    assert blank.metadata.value == [0] by {
      assert blank.metadata.value[0] == 0;
    }
    assert blank == Node(1, 1, Children([Fresh]), Some([0]));
    assert Header(input, 0) == Parsed(Node(1, 1, Children([child.node]), Some([0])), 5);
    assert input[5..5] + [0][0..] == [0];
  }
}
