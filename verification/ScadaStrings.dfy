/** The printed form of node ids: a namespace name, a dot and the identifier, or one of a few
    predefined strings. */
module ScadaStrings {
  import opened NodeIds
  import opened NestedNodeIds

  /** The names of namespaces, the search for one, and the ids of the four predefined strings. */
  datatype Tables = Tables(name: nat -> string, find: NamespaceTable, predefined: seq<NodeId>)

  const PREDEFINED := ["Server!CPU", "Server!Mem", "Server!PCPU", "Server!PMem"]

  ghost predicate Complete(t: Tables) {
    |t.predefined| == |PREDEFINED| && forall i :: 0 <= i < |t.predefined| ==> !t.predefined[i].Null?
  }

  /** The first position of the element, or the length. */
  function Position<T(==)>(s: seq<T>, x: T): (i: nat)
    ensures i <= |s| && (i < |s| ==> s[i] == x) && (i == |s| ==> x !in s)
  {
    if s == [] || s[0] == x then 0 else 1 + Position(s[1..], x)
  }

  function Label(t: Tables, ns: nat): string {
    if t.name(ns) == "" then "NS" + Decimal(ns) else t.name(ns)
  }

  /** `NodeIdToScadaString` */
  function ToScadaString(t: Tables, id: NodeId): string
    requires Complete(t) && !id.Null?
  {
    var i := Position(t.predefined, id);
    if i < |t.predefined| then PREDEFINED[i] else Label(t, id.ns) + "." + Identifier(id)
  }

  predicate StartsWithNs(s: string) {
    |s| >= 2 && s[0] in "Nn" && s[1] in "Ss"
  }

  /** A namespace by its name, or by its number after `NS`. */
  function Resolve(t: Tables, space: string): Option<nat> {
    if t.find(space).Some? then t.find(space)
    else if StartsWithNs(space) then Parse(space[2..])
    else None
  }

  function FromIdentifier(ns: nat, identifier: string): NodeId {
    if '!' !in identifier && Parse(identifier).Some? then Numeric(ns, Parse(identifier).value)
    else Text(ns, identifier)
  }

  /** `NodeIdFromScadaString` */
  function FromScadaString(t: Tables, s: string): NodeId
    requires Complete(t)
  {
    var i := Position(PREDEFINED, s);
    if i < |PREDEFINED| then t.predefined[i]
    else
      var p := IndexOf(s, '.');
      if p == |s| || Resolve(t, s[..p]).None? then Null
      else FromIdentifier(Resolve(t, s[..p]).value, s[p + 1..])
  }

  /** What keeps an id from being read back as it was printed. */
  ghost predicate ReadsBack(t: Tables, id: NodeId)
    requires !id.Null?
  {
    || id in t.predefined
    || (&& '.' !in Label(t, id.ns) && Resolve(t, Label(t, id.ns)) == Some(id.ns)
        && (id.Text? ==> '!' in id.text || Parse(id.text).None?))
  }

  /** Reading inverts printing exactly under that condition. */
  lemma ScadaStringRoundTrip(t: Tables, id: NodeId)
    requires Complete(t) && !id.Null? && (id.Numeric? ==> id.number <= MAX_NUMERIC_ID)
    ensures FromScadaString(t, ToScadaString(t, id)) == id <==> ReadsBack(t, id)
  {
    hide Decimal, Parse, Label, Identifier, Resolve;
    var i := Position(t.predefined, id);
    if i < |t.predefined| {
      PredefinedFound(i);
    } else {
      var space, identifier := Label(t, id.ns), Identifier(id);
      var s := space + "." + identifier;
      NotPredefined(space, identifier);
      IdentifierReads(id);
      if '.' in space {
        DotInLabel(t, space, id);
      } else {
        assert s[..|space|] == space && s[|space| + 1..] == identifier;
        IndexAt(s, '.', |space|);
      }
    }
  }

  /** Ids of a namespace without a name, printed as `NS` and its number, are always read back, unless the
      text is a bare numeral or the table takes the label for another name. */
  lemma UnnamedReadsBack(t: Tables, id: NodeId)
    requires Complete(t) && !id.Null? && (id.Numeric? ==> id.number <= MAX_NUMERIC_ID)
    requires t.name(id.ns) == "" && id.ns <= MAX_NUMERIC_ID && t.find("NS" + Decimal(id.ns)).None?
    requires id.Text? ==> '!' in id.text || Parse(id.text).None?
    ensures FromScadaString(t, ToScadaString(t, id)) == id
  {
    hide Identifier, Position, FromScadaString, ToScadaString;
    UnnamedResolves(t, id.ns);
    ScadaStringRoundTrip(t, id);
  }

  lemma UnnamedResolves(t: Tables, ns: nat)
    requires t.name(ns) == "" && ns <= MAX_NUMERIC_ID && t.find("NS" + Decimal(ns)).None?
    ensures Resolve(t, Label(t, ns)) == Some(ns) && '.' !in Label(t, ns)
  {
    hide Decimal;
    DecimalRoundTrip(ns);
    assert ("NS" + Decimal(ns))[2..] == Decimal(ns);
  }

  /** So are those of a namespace found by its name, when that has no dot. */
  lemma NamedReadsBack(t: Tables, id: NodeId)
    requires Complete(t) && !id.Null? && (id.Numeric? ==> id.number <= MAX_NUMERIC_ID)
    requires t.name(id.ns) != "" && '.' !in t.name(id.ns) && t.find(t.name(id.ns)) == Some(id.ns)
    requires id.Text? ==> '!' in id.text || Parse(id.text).None?
    ensures FromScadaString(t, ToScadaString(t, id)) == id
  {
    hide Identifier, Position, Parse, Decimal;
    ScadaStringRoundTrip(t, id);
  }

  /** A text id that is a number in text is read back as a numeric id. */
  lemma NumberLikeText(t: Tables)
    requires Complete(t) && Text(1, "12") !in t.predefined
    requires '.' !in Label(t, 1) && Resolve(t, Label(t, 1)) == Some(1)
    ensures FromScadaString(t, ToScadaString(t, Text(1, "12"))) == Numeric(1, 12) && !ReadsBack(t, Text(1, "12"))
  {
    hide Decimal, Label, Resolve, Parse;
    var space := Label(t, 1);
    var s := space + "." + "12";
    NotPredefined(space, "12");
    NumberLike(t.find);
    assert s[..|space|] == space && s[|space| + 1..] == "12";
    IndexAt(s, '.', |space|);
  }

  lemma PredefinedFound(i: nat)
    requires i < |PREDEFINED|
    ensures Position(PREDEFINED, PREDEFINED[i]) == i
  {
    var k := Position(PREDEFINED, PREDEFINED[i]);
    assert |PREDEFINED[0]| == |PREDEFINED[1]| == 10 && |PREDEFINED[2]| == |PREDEFINED[3]| == 11;
    assert PREDEFINED[0][7] != PREDEFINED[1][7] && PREDEFINED[2][8] != PREDEFINED[3][8];
  }

  lemma NotPredefined(space: string, identifier: string)
    ensures Position(PREDEFINED, space + "." + identifier) == |PREDEFINED|
  {
    var s := space + "." + identifier;
    assert s[|space|] == '.';
    var k := Position(PREDEFINED, s);
    assert forall j :: 0 <= j < |PREDEFINED| ==> '.' !in PREDEFINED[j];
  }

  lemma IdentifierReads(id: NodeId)
    requires !id.Null? && (id.Numeric? ==> id.number <= MAX_NUMERIC_ID)
    ensures FromIdentifier(id.ns, Identifier(id)) == id
      <==> (id.Text? ==> '!' in id.text || Parse(id.text).None?)
  {
    if id.Numeric? {
      DecimalRoundTrip(id.number);
      NoSeparator(id.number);
    }
  }

  lemma DotInLabel(t: Tables, space: string, id: NodeId)
    requires Complete(t) && !id.Null? && '.' in space
    ensures FromScadaString(t, space + "." + Identifier(id)) != id
  {
    hide Decimal, Resolve;
    var s := space + "." + Identifier(id);
    NotPredefined(space, Identifier(id));
    var i :| 0 <= i < |space| && space[i] == '.';
    var p := IndexOf(s, '.');
    FirstIsNotAfter(s, '.', i);
    var rest := s[p + 1..];
    assert rest[|space| - p - 1] == '.';
    assert Parse(rest).None?;
  }

  lemma {:induction false} FirstIsNotAfter(s: string, c: char, k: nat)
    requires k < |s| && s[k] == c
    ensures IndexOf(s, c) <= k
  {
    if k > 0 {
      FirstIsNotAfter(s[1..], c, k - 1);
    }
  }
}
