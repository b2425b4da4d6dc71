/**
 The plist reader (internal/agent/collect/installed_darwin.go): a walk over the XML token stream
 that counts depth, against the document tree the stream was printed from. The input is what the
 decoder yields before it reports an error or the end.
 */
module Plist {

  datatype Token = Start(name: string) | End(name: string) | CharData(text: string) | Other

  datatype Node = Element(name: string, children: seq<Node>) | Chars(text: string) | Misc

  // ---------------------------------------------------------------- the document as tokens

  function Tokens(n: Node): seq<Token>
    decreases n
  {
    match n
    case Element(name, children) => [Start(name)] + TokensOf(children) + [End(name)]
    case Chars(text) => [CharData(text)]
    case Misc => [Other]
  }

  function TokensOf(ns: seq<Node>): seq<Token>
    decreases ns
  {
    if ns == [] then [] else Tokens(ns[0]) + TokensOf(ns[1..])
  }

  /** The character data directly inside an element. */
  function DirectText(ns: seq<Node>): string {
    if ns == [] then "" else (if ns[0].Chars? then ns[0].text else "") + DirectText(ns[1..])
  }

  // ---------------------------------------------------------------- white space

  /** unicode.IsSpace */
  predicate IsSpace(c: char) {
    || c == '\t' || c == '\n' || c == '\U{0B}' || c == '\U{0C}' || c == '\r' || c == ' '
    || c == '\U{85}' || c == '\U{A0}' || c == '\U{1680}' || '\U{2000}' <= c <= '\U{200A}'
    || c == '\U{2028}' || c == '\U{2029}' || c == '\U{202F}' || c == '\U{205F}' || c == '\U{3000}'
  }

  /** strings.TrimSpace */
  function TrimSpace(s: string): string {
    if s == "" then s
    else if IsSpace(s[0]) then TrimSpace(s[1..])
    else if IsSpace(s[|s| - 1]) then TrimSpace(s[..|s| - 1])
    else s
  }

  /** The white space of Unicode, by code point. */
  lemma SpaceCodes(c: char)
    ensures IsSpace(c) <==>
            || 9 <= c as int <= 13 || c as int == 32 || c as int == 133 || c as int == 160 || c as int == 5760 || 8192 <= c as int <= 8202
            || c as int == 8232 || c as int == 8233 || c as int == 8239 || c as int == 8287 || c as int == 12288
  {
  }

  /** Trimming drops white space at both ends, all of it, and nothing else. */
  lemma {:induction false} TrimExact(s: string) returns (i: nat, j: nat)
    ensures i <= j <= |s| && TrimSpace(s) == s[i..j]
    ensures (forall k :: 0 <= k < i ==> IsSpace(s[k])) && (forall k :: j <= k < |s| ==> IsSpace(s[k]))
    ensures i < j ==> !IsSpace(s[i]) && !IsSpace(s[j - 1])
    decreases |s|
  {
    if s != "" && IsSpace(s[0]) {
      var a, b := TrimExact(s[1..]);
      i, j := a + 1, b + 1;
      assert forall k :: 0 < k < |s| ==> s[k] == s[1..][k - 1];
    } else if s != "" && IsSpace(s[|s| - 1]) {
      i, j := TrimExact(s[..|s| - 1]);
    } else {
      i, j := 0, |s|;
    }
  }

  // ---------------------------------------------------------------- the walk

  datatype Found = Found(pendingKey: string, kv: map<string, string>)

  datatype State = State(depth: int, found: Found)

  /** DecodeElement into a string: the direct character data, and the tokens after the matching end. */
  function Decode(ts: seq<Token>, nest: nat, acc: string): (string, seq<Token>, bool) {
    if ts == [] then
      ("", [], false)
    else
      match ts[0]
      case Start(_) => Decode(ts[1..], nest + 1, acc)
      case End(_) => if nest == 0 then (acc, ts[1..], true) else Decode(ts[1..], nest - 1, acc)
      case CharData(text) => Decode(ts[1..], nest, if nest == 0 then acc + text else acc)
      case Other => Decode(ts[1..], nest, acc)
  }

  lemma {:induction false} DecodeShrinks(ts: seq<Token>, nest: nat, acc: string)
    ensures |Decode(ts, nest, acc).1| <= |ts|
  {
    if ts != [] {
      match ts[0]
      case Start(_) => DecodeShrinks(ts[1..], nest + 1, acc);
      case End(_) => if nest > 0 { DecodeShrinks(ts[1..], nest - 1, acc); }
      case CharData(text) => DecodeShrinks(ts[1..], nest, if nest == 0 then acc + text else acc);
      case Other => DecodeShrinks(ts[1..], nest, acc);
    }
  }

  predicate IsKey(name: string, depth: int) {
    name == "key" && depth == 3
  }

  predicate IsValue(name: string, depth: int, pendingKey: string) {
    name == "string" && depth == 3 && pendingKey != ""
  }

  function TakeKey(f: Found, text: string): Found {
    f.(pendingKey := TrimSpace(text))
  }

  function TakeValue(f: Found, text: string): Found {
    Found("", f.kv[f.pendingKey := text])
  }

  /** What is left of the state after the remaining tokens. */
  function Walk(ts: seq<Token>, st: State): State
    decreases |ts|
  {
    if ts == [] then
      st
    else
      match ts[0]
      case Start(name) =>
        if IsKey(name, st.depth + 1) then
          var (s, rest, ok) := Decode(ts[1..], 0, "");
          DecodeShrinks(ts[1..], 0, "");
          Walk(rest, if ok then st.(found := TakeKey(st.found, s)) else st)
        else if IsValue(name, st.depth + 1, st.found.pendingKey) then
          var (s, rest, ok) := Decode(ts[1..], 0, "");
          DecodeShrinks(ts[1..], 0, "");
          Walk(rest, st.(found := if ok then TakeValue(st.found, s) else st.found.(pendingKey := "")))
        else
          Walk(ts[1..], st.(depth := st.depth + 1))
      case End(_) => Walk(ts[1..], st.(depth := st.depth - 1))
      case _ => Walk(ts[1..], st)
  }

  const START: State := State(0, Found("", map[]))

  /** DecodeElement: the inner loop, from the token after the start tag. */
  method DecodeElement(tokens: seq<Token>, from: nat) returns (s: string, next: nat, ok: bool)
    requires from <= |tokens|
    ensures from <= next <= |tokens|
    ensures (s, tokens[next..], ok) == Decode(tokens[from..], 0, "")
  {
    var acc, nest: nat := "", 0;
    next := from;
    while next < |tokens|
      invariant from <= next <= |tokens|
      invariant Decode(tokens[from..], 0, "") == Decode(tokens[next..], nest, acc)
    {
      var t := tokens[next];
      next := next + 1;
      assert tokens[next - 1..][1..] == tokens[next..];
      match t {
        case Start(_) => nest := nest + 1;
        case End(_) =>
          if nest == 0 {
            return acc, next, true;
          }
          nest := nest - 1;
        case CharData(text) => if nest == 0 { acc := acc + text; }
        case Other =>
      }
    }
    assert tokens[next..] == [];
    return "", next, false;
  }

  /** plistTopLevelKV: the token loop. */
  method PlistTopLevelKV(tokens: seq<Token>) returns (kv: map<string, string>, depth: int)
    ensures var end := Walk(tokens, START); kv == end.found.kv && depth == end.depth
  {
    kv, depth := map[], 0;
    var pendingKey := "";
    var i := 0;
    assert tokens[0..] == tokens;
    while i < |tokens|
      invariant i <= |tokens|
      invariant Walk(tokens[i..], State(depth, Found(pendingKey, kv))) == Walk(tokens, START)
      decreases |tokens| - i
    {
      var t := tokens[i];
      assert tokens[i..][1..] == tokens[i + 1..];
      i := i + 1;
      match t {
        case Start(name) =>
          depth := depth + 1;
          if name == "key" && depth == 3 {
            var s, next, ok := DecodeElement(tokens, i);
            i := next;
            if ok {
              pendingKey := TrimSpace(s);
            }
            depth := depth - 1;
          } else if name == "string" && depth == 3 && pendingKey != "" {
            var s, next, ok := DecodeElement(tokens, i);
            i := next;
            if ok {
              kv := kv[pendingKey := s];
            }
            pendingKey := "";
            depth := depth - 1;
          }
        case End(_) =>
          depth := depth - 1;
        case _ =>
      }
    }
    assert tokens[i..] == [];
  }

  // ---------------------------------------------------------------- the walk over a tree

  /** What the walk should do with one node below `depth` elements: only depth three matters. */
  function Visit(n: Node, depth: int, f: Found): Found
    decreases n
  {
    if !n.Element? then f
    else if IsKey(n.name, depth + 1) then TakeKey(f, DirectText(n.children))
    else if IsValue(n.name, depth + 1, f.pendingKey) then TakeValue(f, DirectText(n.children))
    else VisitAll(n.children, depth + 1, f)
  }

  function VisitAll(ns: seq<Node>, depth: int, f: Found): Found
    decreases ns
  {
    if ns == [] then f else VisitAll(ns[1..], depth, Visit(ns[0], depth, f))
  }

  /** Decoding runs through whole elements: nested text is skipped, direct text is collected. */
  lemma {:induction false} DecodeNode(n: Node, rest: seq<Token>, nest: nat, acc: string)
    ensures Decode(Tokens(n) + rest, nest, acc) ==
            Decode(rest, nest, if nest == 0 && n.Chars? then acc + n.text else acc)
    decreases n
  {
    var ts := Tokens(n) + rest;
    match n
    case Element(name, children) =>
      assert ts[1..] == TokensOf(children) + ([End(name)] + rest);
      DecodeNodes(children, [End(name)] + rest, nest + 1, acc);
      assert ([End(name)] + rest)[1..] == rest;
    case Chars(text) => assert ts[1..] == rest;
    case Misc => assert ts[1..] == rest;
  }

  lemma {:induction false} DecodeNodes(ns: seq<Node>, rest: seq<Token>, nest: nat, acc: string)
    ensures Decode(TokensOf(ns) + rest, nest, acc) == Decode(rest, nest, if nest == 0 then acc + DirectText(ns) else acc)
    decreases ns
  {
    if ns == [] {
      assert TokensOf(ns) + rest == rest && acc + "" == acc;
    } else {
      assert TokensOf(ns) + rest == Tokens(ns[0]) + (TokensOf(ns[1..]) + rest);
      DecodeNode(ns[0], TokensOf(ns[1..]) + rest, nest, acc);
      var text := if ns[0].Chars? then ns[0].text else "";
      DecodeNodes(ns[1..], rest, nest, if nest == 0 && ns[0].Chars? then acc + text else acc);
      assert acc + (text + DirectText(ns[1..])) == (acc + text) + DirectText(ns[1..]);
      assert acc + "" == acc;
    }
  }

  lemma DecodeBody(children: seq<Node>, name: string, rest: seq<Token>)
    ensures Decode(TokensOf(children) + [End(name)] + rest, 0, "") == (DirectText(children), rest, true)
  {
    assert TokensOf(children) + [End(name)] + rest == TokensOf(children) + ([End(name)] + rest);
    DecodeNodes(children, [End(name)] + rest, 0, "");
    assert ([End(name)] + rest)[1..] == rest;
    assert "" + DirectText(children) == DirectText(children);
  }

  /**
   The walk refines the tree: after the tokens of any nodes, the depth is back where it was and
   what was found is what visiting the nodes finds.
   */
  lemma {:induction false} WalkNode(n: Node, rest: seq<Token>, st: State)
    ensures Walk(Tokens(n) + rest, st) == Walk(rest, st.(found := Visit(n, st.depth, st.found)))
    decreases n
  {
    var ts := Tokens(n) + rest;
    match n
    case Element(name, children) =>
      var inner, tail := st.(depth := st.depth + 1), [End(name)] + rest;
      assert ts[1..] == TokensOf(children) + [End(name)] + rest == TokensOf(children) + tail;
      if IsKey(name, st.depth + 1) || IsValue(name, st.depth + 1, st.found.pendingKey) {
        DecodeBody(children, name, rest);
      } else {
        WalkNodes(children, tail, inner);
        assert tail[1..] == rest;
      }
    case Chars(text) => assert ts[1..] == rest;
    case Misc => assert ts[1..] == rest;
  }

  lemma {:induction false} WalkNodes(ns: seq<Node>, rest: seq<Token>, st: State)
    ensures Walk(TokensOf(ns) + rest, st) == Walk(rest, st.(found := VisitAll(ns, st.depth, st.found)))
    decreases ns
  {
    if ns == [] {
      assert TokensOf(ns) + rest == rest;
    } else {
      assert TokensOf(ns) + rest == Tokens(ns[0]) + (TokensOf(ns[1..]) + rest);
      WalkNode(ns[0], TokensOf(ns[1..]) + rest, st);
      WalkNodes(ns[1..], rest, st.(found := Visit(ns[0], st.depth, st.found)));
    }
  }

  /** For every document, the walk ends at depth zero with what visiting the document finds. */
  lemma WalkDocument(document: seq<Node>)
    ensures Walk(TokensOf(document), START) == State(0, VisitAll(document, 0, START.found))
  {
    assert TokensOf(document) + [] == TokensOf(document);
    WalkNodes(document, [], START);
  }

  // ---------------------------------------------------------------- property lists

  /** One key and its value in the top-level dict, with the white space and comments around them. */
  datatype Pair = Pair(gap: seq<Node>, key: seq<Node>, between: seq<Node>, value: Node)

  predicate Gap(ns: seq<Node>) {
    forall n <- ns :: !n.Element?
  }

  predicate WellFormed(p: Pair) {
    Gap(p.gap) && Gap(p.between) && p.value.Element? && p.value.name != "key"
  }

  function PairNodes(p: Pair): seq<Node> {
    p.gap + [Element("key", p.key)] + p.between + [p.value]
  }

  function DictNodes(pairs: seq<Pair>): seq<Node> {
    if pairs == [] then [] else PairNodes(pairs[0]) + DictNodes(pairs[1..])
  }

  /** The dictionary meant: trimmed, non-empty keys whose value is a string, the last one winning. */
  function Meaning(pairs: seq<Pair>, kv: map<string, string>): map<string, string> {
    if pairs == [] then
      kv
    else
      var key := TrimSpace(DirectText(pairs[0].key));
      Meaning(pairs[1..],
        if key != "" && pairs[0].value.Element? && pairs[0].value.name == "string" then kv[key := DirectText(pairs[0].value.children)] else kv)
  }

  /** The pair gives the key, which is its trimmed key text and not empty, a string. */
  predicate Gives(p: Pair, key: string) {
    key != "" && TrimSpace(DirectText(p.key)) == key && p.value.Element? && p.value.name == "string"
  }

  ghost predicate NoneFrom(pairs: seq<Pair>, from: nat, key: string) {
    forall j :: from <= j < |pairs| ==> !Gives(pairs[j], key)
  }

  lemma {:induction false} MeaningKeeps(pairs: seq<Pair>, kv: map<string, string>, key: string)
    requires NoneFrom(pairs, 0, key)
    ensures key in Meaning(pairs, kv) <==> key in kv
    ensures key in kv ==> Meaning(pairs, kv)[key] == kv[key]
  {
    if pairs != [] {
      assert !Gives(pairs[0], key);
      var k := TrimSpace(DirectText(pairs[0].key));
      MeaningKeeps(pairs[1..],
        if k != "" && pairs[0].value.Element? && pairs[0].value.name == "string" then kv[k := DirectText(pairs[0].value.children)] else kv, key);
    }
  }

  lemma {:induction false} MeaningLast(pairs: seq<Pair>, kv: map<string, string>, i: nat, key: string)
    requires i < |pairs| && Gives(pairs[i], key) && NoneFrom(pairs, i + 1, key)
    ensures key in Meaning(pairs, kv) && Meaning(pairs, kv)[key] == DirectText(pairs[i].value.children)
  {
    var k := TrimSpace(DirectText(pairs[0].key));
    var kv' := if k != "" && pairs[0].value.Element? && pairs[0].value.name == "string" then kv[k := DirectText(pairs[0].value.children)] else kv;
    if i == 0 {
      MeaningKeeps(pairs[1..], kv', key);
    } else {
      MeaningLast(pairs[1..], kv', i - 1, key);
    }
  }

  lemma {:induction false} MeaningUpTo(pairs: seq<Pair>, key: string, n: nat)
    requires n <= |pairs| && NoneFrom(pairs, n, key)
    ensures key in Meaning(pairs, map[]) <==> exists i :: 0 <= i < |pairs| && Gives(pairs[i], key)
    ensures forall i :: 0 <= i < |pairs| && Gives(pairs[i], key) && NoneFrom(pairs, i + 1, key) ==>
              key in Meaning(pairs, map[]) && Meaning(pairs, map[])[key] == DirectText(pairs[i].value.children)
  {
    if n == 0 {
      MeaningKeeps(pairs, map[], key);
    } else if Gives(pairs[n - 1], key) {
      MeaningLast(pairs, map[], n - 1, key);
    } else {
      MeaningUpTo(pairs, key, n - 1);
    }
  }

  /** The dictionary meant, key by key: there is a string for a key iff some pair gives it one, and the last such pair decides. */
  lemma MeaningIff(pairs: seq<Pair>, key: string)
    ensures key in Meaning(pairs, map[]) <==> exists i :: 0 <= i < |pairs| && Gives(pairs[i], key)
    ensures forall i :: 0 <= i < |pairs| && Gives(pairs[i], key) && NoneFrom(pairs, i + 1, key) ==>
              key in Meaning(pairs, map[]) && Meaning(pairs, map[])[key] == DirectText(pairs[i].value.children)
  {
    MeaningUpTo(pairs, key, |pairs|);
  }

  lemma {:induction false} VisitConcat(a: seq<Node>, b: seq<Node>, depth: int, f: Found)
    ensures VisitAll(a + b, depth, f) == VisitAll(b, depth, VisitAll(a, depth, f))
  {
    if a == [] {
      assert a + b == b;
    } else {
      assert (a + b)[1..] == a[1..] + b;
      VisitConcat(a[1..], b, depth, Visit(a[0], depth, f));
    }
  }

  lemma {:induction false} VisitGap(ns: seq<Node>, depth: int, f: Found)
    requires Gap(ns)
    ensures VisitAll(ns, depth, f) == f
  {
    if ns != [] {
      assert ns[0] in ns;
      VisitGap(ns[1..], depth, f);
    }
  }

  /** Nothing below depth three is taken, whatever it looks like. */
  lemma {:induction false} VisitDeep(n: Node, depth: int, f: Found)
    requires depth >= 3
    ensures Visit(n, depth, f) == f
    decreases n
  {
    if n.Element? {
      VisitAllDeep(n.children, depth + 1, f);
    }
  }

  lemma {:induction false} VisitAllDeep(ns: seq<Node>, depth: int, f: Found)
    requires depth >= 3
    ensures VisitAll(ns, depth, f) == f
    decreases ns
  {
    if ns != [] {
      VisitDeep(ns[0], depth, f);
      VisitAllDeep(ns[1..], depth, f);
    }
  }

  lemma VisitPair(p: Pair, f: Found)
    requires WellFormed(p)
    ensures var key := TrimSpace(DirectText(p.key));
            VisitAll(PairNodes(p), 2, f).kv ==
            if key != "" && p.value.name == "string" then f.kv[key := DirectText(p.value.children)] else f.kv
  {
    var keyNode := Element("key", p.key);
    var f1 := TakeKey(f, DirectText(p.key));
    assert PairNodes(p) == p.gap + ([keyNode] + (p.between + [p.value]));
    VisitConcat(p.gap, [keyNode] + (p.between + [p.value]), 2, f);
    VisitGap(p.gap, 2, f);
    VisitConcat([keyNode], p.between + [p.value], 2, f);
    assert [keyNode][1..] == [] && VisitAll([keyNode], 2, f) == Visit(keyNode, 2, f) == f1;
    VisitConcat(p.between, [p.value], 2, f1);
    VisitGap(p.between, 2, f1);
    assert [p.value][1..] == [] && VisitAll([p.value], 2, f1) == Visit(p.value, 2, f1);
    VisitAllDeep(p.value.children, 3, f1);
  }

  lemma {:induction false} VisitDict(pairs: seq<Pair>, f: Found)
    requires forall p <- pairs :: WellFormed(p)
    ensures VisitAll(DictNodes(pairs), 2, f).kv == Meaning(pairs, f.kv)
  {
    if pairs != [] {
      assert pairs[0] in pairs;
      VisitConcat(PairNodes(pairs[0]), DictNodes(pairs[1..]), 2, f);
      VisitPair(pairs[0], f);
      VisitDict(pairs[1..], VisitAll(PairNodes(pairs[0]), 2, f));
    }
  }

  /** A property list: prolog, then one root element holding one dict, white space between. */
  function PropertyList(prolog: seq<Node>, before: seq<Node>, pairs: seq<Pair>, inside: seq<Node>, after: seq<Node>): seq<Node> {
    prolog + [Element("plist", before + [Element("dict", DictNodes(pairs) + inside)] + after)]
  }

  /**
   For every property list whose top-level dict alternates keys and values, however deeply the
   values nest, the walk returns exactly the meaning of the dict and ends at depth zero.
   */
  lemma PlistIsRead(prolog: seq<Node>, before: seq<Node>, pairs: seq<Pair>, inside: seq<Node>, after: seq<Node>)
    requires Gap(prolog) && Gap(before) && Gap(inside) && Gap(after) && forall p <- pairs :: WellFormed(p)
    ensures var end := Walk(TokensOf(PropertyList(prolog, before, pairs, inside, after)), START);
            end.found.kv == Meaning(pairs, map[]) && end.depth == 0
  {
    var f, dict := START.found, Element("dict", DictNodes(pairs) + inside);
    var root := Element("plist", before + [dict] + after);
    WalkDocument(PropertyList(prolog, before, pairs, inside, after));
    VisitConcat(prolog, [root], 0, f);
    VisitGap(prolog, 0, f);
    assert [root][1..] == [] && VisitAll([root], 0, f) == Visit(root, 0, f);
    assert before + [dict] + after == before + ([dict] + after);
    VisitConcat(before, [dict] + after, 1, f);
    VisitGap(before, 1, f);
    VisitConcat([dict], after, 1, f);
    assert [dict][1..] == [] && VisitAll([dict], 1, f) == Visit(dict, 1, f);
    VisitGap(after, 1, Visit(dict, 1, f));
    VisitConcat(DictNodes(pairs), inside, 2, f);
    VisitDict(pairs, f);
    VisitGap(inside, 2, VisitAll(DictNodes(pairs), 2, f));
  }
}
