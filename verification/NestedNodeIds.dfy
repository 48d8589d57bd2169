/** Ids of nested nodes: a parent's id and a name joined by `!`, printed and parsed. */
module NestedNodeIds {
  import opened NodeIds

  // ---------------------------------------------------------------- searching and numerals

  function IndexOf(s: string, c: char): (i: nat)
    ensures i <= |s| && c !in s[..i] && (i < |s| ==> s[i] == c)
  {
    if s == "" || s[0] == c then 0 else 1 + IndexOf(s[1..], c)
  }

  function LastIndexOf(s: string, c: char): (i: int)
    ensures -1 <= i < |s| && c !in s[i + 1..] && (0 <= i ==> s[i] == c)
  {
    if s == "" then -1 else if s[|s| - 1] == c then |s| - 1 else LastIndexOf(s[..|s| - 1], c)
  }

  lemma {:induction false} LastIndexAt(s: string, c: char, i: nat)
    requires i < |s| && s[i] == c && c !in s[i + 1..]
    ensures LastIndexOf(s, c) == i
  {
    if i < |s| - 1 {
      assert s[|s| - 1] in s[i + 1..];
      assert s[..|s| - 1][i + 1..] <= s[i + 1..];
      LastIndexAt(s[..|s| - 1], c, i);
    }
  }

  lemma {:induction false} IndexAt(s: string, c: char, i: nat)
    requires i < |s| && s[i] == c && c !in s[..i]
    ensures IndexOf(s, c) == i
  {
    if i > 0 {
      assert s[0] in s[..i];
      assert s[1..][..i - 1] == s[..i][1..];
      IndexAt(s[1..], c, i - 1);
    }
  }

  const DIGITS := "0123456789"

  /** The largest numeric identifier of 32 bits. */
  const MAX_NUMERIC_ID := 0xFFFF_FFFF

  predicate IsDigit(c: char) {
    '0' <= c <= '9'
  }

  function Decimal(n: nat): (s: string)
    ensures s != "" && forall i :: 0 <= i < |s| ==> IsDigit(s[i])
  {
    (if n < 10 then "" else Decimal(n / 10)) + [DIGITS[n % 10]]
  }

  function DigitValue(c: char): (d: nat)
    requires IsDigit(c)
    ensures d < 10
  {
    c as int - '0' as int
  }

  function DecimalValue(s: string): nat
    requires forall i :: 0 <= i < |s| ==> IsDigit(s[i])
  {
    if s == "" then 0 else 10 * DecimalValue(s[..|s| - 1]) + DigitValue(s[|s| - 1])
  }

  lemma {:induction false} DecimalRoundTrip(n: nat)
    ensures DecimalValue(Decimal(n)) == n
  {
    var d := Decimal(n);
    assert d[|d| - 1] == DIGITS[n % 10];
    assert DigitValue(DIGITS[n % 10]) == n % 10;
    if n >= 10 {
      DecimalRoundTrip(n / 10);
      assert d[..|d| - 1] == Decimal(n / 10);
    } else {
      assert d[..|d| - 1] == "";
    }
  }

  /** `Parse` of a numeric identifier: decimal digits, all of the string, within the width. */
  function Parse(s: string): Option<nat> {
    if s != "" && (forall i :: 0 <= i < |s| ==> IsDigit(s[i])) && DecimalValue(s) <= MAX_NUMERIC_ID then
      Some(DecimalValue(s))
    else None
  }

  // ---------------------------------------------------------------- nested ids

  datatype Nested = Nested(parent: NodeId, name: string)

  /** `FindNamespaceIndexByName` over a table of namespace names. */
  type NamespaceTable = string -> Option<nat>

  /** The parent's id from what stands before the last `!`; it may name its own namespace. */
  function ParentId(find: NamespaceTable, ns: nat, text: string, topmost: bool): (r: Option<NodeId>)
    ensures r.Some? ==> !r.value.Null? && (r.value.Text? ==> |r.value.text| <= |text|)
  {
    var np := IndexOf(text, ':');
    if np == |text| then Some(InnerId(ns, text, topmost))
    else
      var named := find(text[..np]);
      if named.None? then None else Some(InnerId(named.value, text[np + 1..], topmost))
  }

  /** The topmost parent may be numeric. */
  function InnerId(ns: nat, text: string, topmost: bool): NodeId {
    if topmost && Parse(text).Some? then Numeric(ns, Parse(text).value) else Text(ns, text)
  }

  /** `IsNestedNodeId` */
  function IsNestedNodeId(find: NamespaceTable, id: NodeId): (r: Option<Nested>)
    ensures r.Some? ==> id.Text? && r.value.name != "" && !r.value.parent.Null?
    ensures r.Some? && r.value.parent.Text? ==> |r.value.parent.text| < |id.text|
  {
    if !id.Text? then None
    else
      var p := LastIndexOf(id.text, '!');
      if p < 0 then None
      else
        var parent := ParentId(find, id.ns, id.text[..p], IndexOf(id.text, '!') == p);
        var name := id.text[p + 1..];
        if parent.None? || name == "" then None else Some(Nested(parent.value, name))
  }

  function Identifier(id: NodeId): string
    requires !id.Null?
  {
    if id.Numeric? then Decimal(id.number) else id.text
  }

  /** `MakeNestedNodeId` into the namespace `ns` */
  function MakeNestedNodeId(parent: NodeId, name: string, ns: nat): NodeId
    requires !parent.Null? && name != ""
  {
    Text(ns, (if ns != parent.ns then Decimal(parent.ns) + ":" else "") + Identifier(parent) + "!" + name)
  }

  /** What keeps a nested id from being taken apart as it was put together. */
  predicate TakesApart(find: NamespaceTable, parent: NodeId, name: string, ns: nat)
    requires !parent.Null?
  {
    && '!' !in name
    && (if ns != parent.ns then find(Decimal(parent.ns)) == Some(parent.ns) else ':' !in Identifier(parent))
    && (parent.Text? && '!' !in parent.text ==> Parse(parent.text).None?)
  }

  function Prefix(parent: NodeId, ns: nat): string
    requires !parent.Null?
  {
    if ns != parent.ns then Decimal(parent.ns) + ":" else ""
  }

  lemma IdentifierParses(parent: NodeId)
    requires !parent.Null? && (parent.Numeric? ==> parent.number <= MAX_NUMERIC_ID)
    ensures InnerId(parent.ns, Identifier(parent), '!' !in Identifier(parent)) == parent
      <==> (parent.Text? && '!' !in parent.text ==> Parse(parent.text).None?)
    ensures parent.Numeric? ==> '!' !in Identifier(parent) && ':' !in Identifier(parent)
  {
    if parent.Numeric? {
      DecimalRoundTrip(parent.number);
      NoSeparator(parent.number);
    }
  }

  lemma NoSeparator(n: nat)
    ensures '!' !in Decimal(n) && ':' !in Decimal(n)
  {
  }

  lemma ParentAcross(find: NamespaceTable, parent: NodeId, ns: nat)
    requires !parent.Null? && (parent.Numeric? ==> parent.number <= MAX_NUMERIC_ID) && ns != parent.ns
    ensures ParentId(find, ns, Prefix(parent, ns) + Identifier(parent), '!' !in Identifier(parent)) == Some(parent)
      <==> TakesApart(find, parent, "", ns)
  {
    hide Decimal, Parse, IndexOf;
    var text, named := Prefix(parent, ns) + Identifier(parent), Decimal(parent.ns);
    IdentifierParses(parent);
    NoSeparator(parent.ns);
    assert text[..|named|] == named && text[|named|] == ':' && text[|named| + 1..] == Identifier(parent);
    IndexAt(text, ':', |named|);
  }

  lemma ParentWithin(find: NamespaceTable, parent: NodeId)
    requires !parent.Null? && (parent.Numeric? ==> parent.number <= MAX_NUMERIC_ID)
    ensures ParentId(find, parent.ns, Identifier(parent), '!' !in Identifier(parent)) == Some(parent)
      <==> TakesApart(find, parent, "", parent.ns)
  {
    hide Decimal, Parse, IndexOf;
    var text := Identifier(parent);
    IdentifierParses(parent);
    var np := IndexOf(text, ':');
    assert np == |text| ==> text[..np] == text;
  }

  /** The part before the last `!` gives the parent back. */
  lemma ParentRoundTrip(find: NamespaceTable, parent: NodeId, ns: nat)
    requires !parent.Null? && (parent.Numeric? ==> parent.number <= MAX_NUMERIC_ID)
    ensures ParentId(find, ns, Prefix(parent, ns) + Identifier(parent), '!' !in Identifier(parent)) == Some(parent)
      <==> TakesApart(find, parent, "", ns)
  {
    hide ParentId, TakesApart, Identifier;
    if ns != parent.ns {
      ParentAcross(find, parent, ns);
    } else {
      ParentWithin(find, parent);
      assert Prefix(parent, ns) + Identifier(parent) == Identifier(parent);
    }
  }

  /** `IsNestedNodeId` inverts `MakeNestedNodeId` exactly under that condition. */
  lemma NestedRoundTrip(find: NamespaceTable, parent: NodeId, name: string, ns: nat)
    requires !parent.Null? && name != "" && (parent.Numeric? ==> parent.number <= MAX_NUMERIC_ID)
    ensures IsNestedNodeId(find, MakeNestedNodeId(parent, name, ns)) == Some(Nested(parent, name))
      <==> TakesApart(find, parent, name, ns)
  {
    hide ParentId, Identifier, Decimal, Parse;
    var before := Prefix(parent, ns) + Identifier(parent);
    var text := before + "!" + name;
    assert MakeNestedNodeId(parent, name, ns) == Text(ns, text);
    assert text[|before| + 1..] == name && text[..|before|] == before;
    if '!' in name {
      LastIsLater(before, name);
    } else {
      LastIndexAt(text, '!', |before|);
      FirstIsLast(parent, ns, name);
      ParentRoundTrip(find, parent, ns);
    }
  }

  lemma NestedAt(find: NamespaceTable, ns: nat, before: string, name: string)
    requires '!' !in name && name != ""
    ensures var parent := ParentId(find, ns, before, '!' !in before);
      IsNestedNodeId(find, Text(ns, before + "!" + name))
        == if parent.None? then None else Some(Nested(parent.value, name))
  {
    hide ParentId, IndexOf, LastIndexOf;
    var text := before + "!" + name;
    assert text[..|before|] == before && text[|before| + 1..] == name;
    LastIndexAt(text, '!', |before|);
    if '!' !in before {
      IndexAt(text, '!', |before|);
    }
  }

  /** A parent whose text reads as a number comes back as a numeric id. */
  lemma NumberLikeParent(find: NamespaceTable)
    ensures IsNestedNodeId(find, MakeNestedNodeId(Text(1, "12"), "x", 1)) == Some(Nested(Numeric(1, 12), "x"))
    ensures !TakesApart(find, Text(1, "12"), "x", 1)
  {
    hide IsNestedNodeId, ParentId, TakesApart;
    assert MakeNestedNodeId(Text(1, "12"), "x", 1) == Text(1, "12" + "!" + "x");
    NestedAt(find, 1, "12", "x");
    NumberLike(find);
    NestedRoundTrip(find, Text(1, "12"), "x", 1);
  }

  lemma NumberLike(find: NamespaceTable)
    ensures Parse("12") == Some(12) && ParentId(find, 1, "12", true) == Some(Numeric(1, 12))
  {
    assert "12"[..1] == "1" && "1"[..0] == "";
    assert DecimalValue("1") == 1;
    assert DecimalValue("12") == 12;
  }

  /** A separator in the name goes to the parent. */
  lemma SeparatorInName(find: NamespaceTable)
    ensures IsNestedNodeId(find, MakeNestedNodeId(Text(1, "pump"), "a!b", 1)) == Some(Nested(Text(1, "pump!a"), "b"))
    ensures !TakesApart(find, Text(1, "pump"), "a!b", 1)
  {
    hide IsNestedNodeId, ParentId, TakesApart;
    assert MakeNestedNodeId(Text(1, "pump"), "a!b", 1) == Text(1, "pump!a" + "!" + "b");
    assert "pump!a"[4] == '!';
    NestedAt(find, 1, "pump!a", "b");
    InnerParent(find);
    NestedRoundTrip(find, Text(1, "pump"), "a!b", 1);
  }

  lemma InnerParent(find: NamespaceTable)
    ensures ParentId(find, 1, "pump!a", false) == Some(Text(1, "pump!a"))
  {
    hide IndexOf;
    var np := IndexOf("pump!a", ':');
    assert ':' !in "pump!a";
  }

  lemma {:induction false} LastIsNotBefore(s: string, c: char, k: nat)
    requires k < |s| && s[k] == c
    ensures k <= LastIndexOf(s, c)
  {
    if k < |s| - 1 {
      LastIsNotBefore(s[..|s| - 1], c, k);
    }
  }

  lemma LastIsLater(before: string, name: string)
    requires '!' in name
    ensures |before| < LastIndexOf(before + "!" + name, '!')
  {
    hide LastIndexOf;
    var front, i :| front == before + "!" && 0 <= i < |name| && name[i] == '!';
    assert (front + name)[|front| + i] == name[i];
    LastIsNotBefore(front + name, '!', |front| + i);
  }

  lemma FirstIsLast(parent: NodeId, ns: nat, name: string)
    requires !parent.Null?
    ensures var before := Prefix(parent, ns) + Identifier(parent);
      IndexOf(before + "!" + name, '!') == |before| <==> '!' !in Identifier(parent)
  {
    hide Decimal, IndexOf;
    var before := Prefix(parent, ns) + Identifier(parent);
    var text := before + "!" + name;
    NoSeparator(parent.ns);
    if '!' in Identifier(parent) {
      var i :| 0 <= i < |Identifier(parent)| && Identifier(parent)[i] == '!';
      assert before[|Prefix(parent, ns)| + i] == '!';
      assert text[..|before|] == before;
    } else {
      assert text[..|before|] == before;
      IndexAt(text, '!', |before|);
    }
  }

  // ---------------------------------------------------------------- chains of nestings

  /** The root of a nested id and the first name below it. */
  function Root(find: NamespaceTable, nested: Nested): Nested
    decreases if nested.parent.Text? then |nested.parent.text| else 0
  {
    var above := IsNestedNodeId(find, nested.parent);
    if above.None? then nested else Root(find, above.value)
  }

  /** `GetRootNestedNodeId` */
  method GetRootNestedNodeId(find: NamespaceTable, id: NodeId) returns (r: Option<Nested>)
    ensures r == match IsNestedNodeId(find, id) case None => None case Some(n) => Some(Root(find, n))
  {
    r := IsNestedNodeId(find, id);
    if r.None? {
      return;
    }
    var next := IsNestedNodeId(find, r.value.parent);
    while next.Some?
      invariant r.Some? && next == IsNestedNodeId(find, r.value.parent)
      invariant Root(find, r.value) == Root(find, IsNestedNodeId(find, id).value)
      decreases if r.value.parent.Text? then |r.value.parent.text| else 0
    {
      r := next;
      next := IsNestedNodeId(find, r.value.parent);
    }
  }

  /** A name and the namespace it is nested into. */
  datatype Step = Step(name: string, ns: nat)

  /** The id after nesting step by step. */
  function Chain(root: NodeId, steps: seq<Step>): (id: NodeId)
    requires !root.Null? && forall i :: 0 <= i < |steps| ==> steps[i].name != ""
    ensures !id.Null? && if steps == [] then id == root else id.Text?
  {
    if steps == [] then root
    else MakeNestedNodeId(Chain(root, steps[..|steps| - 1]), steps[|steps| - 1].name, steps[|steps| - 1].ns)
  }

  /** Each nesting of the chain can be taken apart. */
  ghost predicate ChainTakesApart(find: NamespaceTable, root: NodeId, steps: seq<Step>)
    requires !root.Null? && forall i :: 0 <= i < |steps| ==> steps[i].name != ""
  {
    forall i :: 0 <= i < |steps| ==> TakesApart(find, Chain(root, steps[..i]), steps[i].name, steps[i].ns)
  }

  /** The chain leads back to its root and first name. */
  lemma {:induction false} ChainLeadsBack(find: NamespaceTable, root: NodeId, steps: seq<Step>)
    requires !root.Null? && (root.Numeric? ==> root.number <= MAX_NUMERIC_ID)
    requires steps != [] && forall i :: 0 <= i < |steps| ==> steps[i].name != ""
    requires ChainTakesApart(find, root, steps) && IsNestedNodeId(find, root).None?
    ensures IsNestedNodeId(find, Chain(root, steps)).Some?
    ensures Root(find, IsNestedNodeId(find, Chain(root, steps)).value) == Nested(root, steps[0].name)
    decreases |steps|
  {
    hide TakesApart, IsNestedNodeId, MakeNestedNodeId;
    var n := |steps| - 1;
    var parent := Chain(root, steps[..n]);
    NestedRoundTrip(find, parent, steps[n].name, steps[n].ns);
    if n > 0 {
      forall i | 0 <= i < n
        ensures TakesApart(find, Chain(root, steps[..n][..i]), steps[..n][i].name, steps[..n][i].ns)
      {
        assert steps[..n][..i] == steps[..i];
      }
      ChainLeadsBack(find, root, steps[..n]);
    }
  }

  /** Within one namespace it is enough that the root and the names hold no separators. */
  lemma PlainChain(find: NamespaceTable, root: NodeId, steps: seq<Step>)
    requires !root.Null? && Plain(root, steps)
    requires root.Text? ==> '!' !in root.text && Parse(root.text).None?
    ensures ChainTakesApart(find, root, steps) && IsNestedNodeId(find, root).None?
  {
    hide Parse, Decimal;
    if root.Numeric? {
      NoSeparator(root.number);
    }
    forall i | 0 <= i < |steps| ensures TakesApart(find, Chain(root, steps[..i]), steps[i].name, steps[i].ns) {
      PlainId(root, steps[..i]);
    }
  }

  ghost predicate Plain(root: NodeId, steps: seq<Step>)
    requires !root.Null?
  {
    && (root.Text? ==> ':' !in root.text)
    && forall i :: 0 <= i < |steps| ==>
         steps[i].name != "" && steps[i].ns == root.ns && '!' !in steps[i].name && ':' !in steps[i].name
  }

  lemma {:induction false} PlainId(root: NodeId, steps: seq<Step>)
    requires !root.Null? && Plain(root, steps)
    ensures var id := Chain(root, steps);
      id.ns == root.ns && ':' !in Identifier(id) && (steps != [] ==> '!' in id.text)
    decreases |steps|
  {
    hide Decimal;
    if steps == [] {
      if root.Numeric? {
        NoSeparator(root.number);
      }
    } else {
      var n := |steps| - 1;
      PlainId(root, steps[..n]);
      var above := Identifier(Chain(root, steps[..n]));
      assert Chain(root, steps).text == "" + above + "!" + steps[n].name;
      assert "" + above == above;
      Joined(above, steps[n].name);
    }
  }

  lemma Joined(a: string, b: string)
    requires ':' !in a && ':' !in b
    ensures ':' !in a + "!" + b && '!' in a + "!" + b
  {
    assert (a + "!" + b)[|a|] == '!';
  }
}
