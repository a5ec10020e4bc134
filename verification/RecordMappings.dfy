/**
 Cavi to NetSuite record mapping (agents/mapper/netsuite_records.py): every fault is
 listed, and nothing carried is dropped.
 */
module RecordMappings {
  import opened Prelude

  /** A converter, None when it raises. */
  type Converter = Json -> Option<Json>

  /** Declared fields in table order: (Cavi field, NetSuite target). */
  type Fields = seq<(string, string)>

  datatype LineMapping = LineMapping(target: string, fields: Fields, required: seq<string>, converters: map<string, Converter>)

  datatype RecordMapping = RecordMapping(
    fields: Fields, required: seq<string>, unmapped: seq<string>,
    converters: map<string, Converter>, lines: seq<(string, LineMapping)>)

  datatype Gap =
    | Required(name: string)
    | Undeclared(name: string)
    | LineRequired(field: string, index: nat, name: string)
    | LineUndeclared(field: string, index: nat, name: string)
    | NotAnObject(field: string, index: nat)
    | NotANonEmptyList(field: string)

  datatype Outcome = Mapped(out: Record) | Blocked(gaps: seq<Gap>) | Raised

  function Sources(fields: Fields): set<string> { set f | f in fields :: f.0 }

  // --- Gaps -------------------------------------------------------------------------

  /** `line.get(name) in (None, "")` */
  predicate LacksInLine(line: Record, name: string) {
    name !in line || line[name] == Null || line[name] == Str("")
  }

  /** `record.get(name) in (None, "", [])` */
  predicate Lacks(record: Record, name: string) {
    LacksInLine(record, name) || record[name] == List([])
  }

  function LineRequiredGaps(line: Record, required: seq<string>, field: string, index: nat): seq<Gap> {
    if required == [] then []
    else
      var last := |required| - 1;
      LineRequiredGaps(line, required[..last], field, index)
      + if LacksInLine(line, required[last]) then [LineRequired(field, index, required[last])] else []
  }

  function LineUndeclaredGaps(names: seq<string>, field: string, index: nat): seq<Gap> {
    seq(|names|, i requires 0 <= i < |names| => LineUndeclared(field, index, names[i]))
  }

  function LineGaps(m: LineMapping, line: Json, field: string, index: nat): seq<Gap> {
    if !line.Obj? then [NotAnObject(field, index)]
    else LineRequiredGaps(line.fields, m.required, field, index)
         + LineUndeclaredGaps(SortedKeys(line.fields.Keys - Sources(m.fields)), field, index)
  }

  function LinesGaps(m: LineMapping, items: seq<Json>, field: string): seq<Gap> {
    if items == [] then []
    else LinesGaps(m, items[..|items| - 1], field) + LineGaps(m, items[|items| - 1], field, |items| - 1)
  }

  function ListGaps(m: LineMapping, value: Json, field: string): seq<Gap> {
    if !value.List? || value.items == [] then [NotANonEmptyList(field)] else LinesGaps(m, value.items, field)
  }

  function RequiredGaps(record: Record, required: seq<string>): seq<Gap> {
    if required == [] then []
    else
      var last := |required| - 1;
      RequiredGaps(record, required[..last]) + if Lacks(record, required[last]) then [Required(required[last])] else []
  }

  function Declared(m: RecordMapping): set<string> {
    Sources(m.fields) + (set u | u in m.unmapped) + (set i | 0 <= i < |m.lines| :: m.lines[i].0)
  }

  function UndeclaredGaps(names: seq<string>): seq<Gap> {
    seq(|names|, i requires 0 <= i < |names| => Undeclared(names[i]))
  }

  function AllListGaps(lines: seq<(string, LineMapping)>, record: Record): seq<Gap> {
    if lines == [] then []
    else
      var (field, m) := lines[|lines| - 1];
      AllListGaps(lines[..|lines| - 1], record) + if field in record then ListGaps(m, record[field], field) else []
  }

  function Gaps(m: RecordMapping, record: Record): seq<Gap> {
    RequiredGaps(record, m.required)
    + UndeclaredGaps(SortedKeys(record.Keys - Declared(m)))
    + AllListGaps(m.lines, record)
  }

  // --- Mapped fields ------------------------------------------------------------------

  predicate Carries(record: Record, source: string) { source in record && record[source] != Null }

  function Converted(converters: map<string, Converter>, source: string, v: Json): Option<Json> {
    if source in converters then converters[source](v) else Some(v)
  }

  /** The carried fields under their targets, None when a converter raises. */
  function MappedFields(fields: Fields, converters: map<string, Converter>, record: Record): Option<Record> {
    if fields == [] then Some(map[])
    else
      var (source, target) := fields[|fields| - 1];
      match MappedFields(fields[..|fields| - 1], converters, record)
      case None => None
      case Some(out) =>
        if !Carries(record, source) then Some(out)
        else match Converted(converters, source, record[source]) case None => None case Some(v) => Some(out[target := v])
  }

  /** Lines that are objects, mapped in order; the others only leave a gap. */
  function MappedLines(m: LineMapping, items: seq<Json>): Option<seq<Json>> {
    if items == [] then Some([])
    else
      var line := items[|items| - 1];
      match MappedLines(m, items[..|items| - 1])
      case None => None
      case Some(out) =>
        if !line.Obj? then Some(out)
        else match MappedFields(m.fields, m.converters, line.fields)
             case None => None
             case Some(r) => Some(out + [Obj(r)])
  }

  function MappedList(m: LineMapping, value: Json): Option<seq<Json>> {
    if !value.List? || value.items == [] then Some([]) else MappedLines(m, value.items)
  }

  function MappedLists(lines: seq<(string, LineMapping)>, record: Record, out: Record): Option<Record> {
    if lines == [] then Some(out)
    else
      var (field, m) := lines[|lines| - 1];
      match MappedLists(lines[..|lines| - 1], record, out)
      case None => None
      case Some(r) =>
        if field !in record then Some(r)
        else match MappedList(m, record[field]) case None => None case Some(items) => Some(r[m.target := List(items)])
  }

  function Output(m: RecordMapping, record: Record): Option<Record> {
    match MappedFields(m.fields, m.converters, record)
    case None => None
    case Some(out) => MappedLists(m.lines, record, out)
  }

  // --- The loops --------------------------------------------------------------------------

  method FieldLoop(fields: Fields, converters: map<string, Converter>, record: Record) returns (out: Option<Record>)
    ensures out == MappedFields(fields, converters, record)
  {
    var mapped: Record := map[];
    for i := 0 to |fields|
      invariant MappedFields(fields[..i], converters, record) == Some(mapped)
    {
      assert fields[..i + 1][..i] == fields[..i];
      var (source, target) := fields[i];
      if Carries(record, source) {
        var v := Converted(converters, source, record[source]);
        if v.None? {
          FieldsStayRaised(fields, converters, record, i + 1);
          return None;
        }
        mapped := mapped[target := v.value];
      }
    }
    assert fields[..|fields|] == fields;
    return Some(mapped);
  }

  lemma {:induction false} FieldsStayRaised(fields: Fields, converters: map<string, Converter>, record: Record, i: nat)
    requires i <= |fields| && MappedFields(fields[..i], converters, record).None?
    ensures MappedFields(fields, converters, record).None?
  {
    if i == |fields| {
      assert fields[..i] == fields;
    } else {
      assert fields[..|fields| - 1][..i] == fields[..i];
      FieldsStayRaised(fields[..|fields| - 1], converters, record, i);
    }
  }

  lemma {:induction false} LinesStayRaised(m: LineMapping, items: seq<Json>, i: nat)
    requires i <= |items| && MappedLines(m, items[..i]).None?
    ensures MappedLines(m, items).None?
  {
    if i == |items| {
      assert items[..i] == items;
    } else {
      assert items[..|items| - 1][..i] == items[..i];
      LinesStayRaised(m, items[..|items| - 1], i);
    }
  }

  method RequiredLoop(line: Record, required: seq<string>, field: string, index: nat) returns (gaps: seq<Gap>)
    ensures gaps == LineRequiredGaps(line, required, field, index)
  {
    gaps := [];
    for i := 0 to |required|
      invariant gaps == LineRequiredGaps(line, required[..i], field, index)
    {
      assert required[..i + 1][..i] == required[..i];
      if LacksInLine(line, required[i]) { gaps := gaps + [LineRequired(field, index, required[i])]; }
    }
    assert required[..|required|] == required;
  }

  /** One line: its gaps, and its mapped form unless it is no object. */
  method OneLine(m: LineMapping, line: Json, field: string, i: nat) returns (gaps: seq<Gap>, mapped: Option<Record>)
    ensures gaps == LineGaps(m, line, field, i)
    ensures mapped == if line.Obj? then MappedFields(m.fields, m.converters, line.fields) else Some(map[])
  {
    if !line.Obj? {
      return [NotAnObject(field, i)], Some(map[]);
    }
    gaps := RequiredLoop(line.fields, m.required, field, i);
    gaps := gaps + LineUndeclaredGaps(SortedKeys(line.fields.Keys - Sources(m.fields)), field, i);
    mapped := FieldLoop(m.fields, m.converters, line.fields);
  }

  lemma LinesStep(m: LineMapping, items: seq<Json>, field: string, i: nat)
    requires i < |items|
    ensures LinesGaps(m, items[..i + 1], field) == LinesGaps(m, items[..i], field) + LineGaps(m, items[i], field, i)
    ensures MappedLines(m, items[..i]).Some? ==>
              var mapped := if items[i].Obj? then MappedFields(m.fields, m.converters, items[i].fields) else Some(map[]);
              MappedLines(m, items[..i + 1]) ==
                if mapped.None? then None
                else Some(MappedLines(m, items[..i]).value + if items[i].Obj? then [Obj(mapped.value)] else [])
  {
    assert items[..i + 1][..i] == items[..i];
    var before := MappedLines(m, items[..i]);
    if before.Some? { assert before.value + [] == before.value; }
  }

  /** `LineMapping.apply`: None when a converter raises, else the mapped lines and the gaps. */
  method ApplyLines(m: LineMapping, value: Json, field: string) returns (r: Option<(seq<Json>, seq<Gap>)>)
    ensures r.None? <==> MappedList(m, value).None?
    ensures r.Some? ==> r.value == (MappedList(m, value).value, ListGaps(m, value, field))
  {
    if !value.List? || value.items == [] {
      return Some(([], [NotANonEmptyList(field)]));
    }
    var items := value.items;
    var gaps: seq<Gap> := [];
    var out: seq<Json> := [];
    for i := 0 to |items|
      invariant gaps == LinesGaps(m, items[..i], field)
      invariant MappedLines(m, items[..i]) == Some(out)
    {
      LinesStep(m, items, field, i);
      var lineGaps, mapped := OneLine(m, items[i], field, i);
      if mapped.None? {
        LinesStayRaised(m, items, i + 1);
        return None;
      }
      gaps := gaps + lineGaps;
      out := out + if items[i].Obj? then [Obj(mapped.value)] else [];
    }
    assert items[..|items|] == items;
    return Some((out, gaps));
  }

  lemma {:induction false} ListsStayRaised(lines: seq<(string, LineMapping)>, record: Record, out: Record, i: nat)
    requires i <= |lines| && MappedLists(lines[..i], record, out).None?
    ensures MappedLists(lines, record, out).None?
  {
    if i == |lines| {
      assert lines[..i] == lines;
    } else {
      assert lines[..|lines| - 1][..i] == lines[..i];
      ListsStayRaised(lines[..|lines| - 1], record, out, i);
    }
  }

  method MissingLoop(record: Record, required: seq<string>) returns (gaps: seq<Gap>)
    ensures gaps == RequiredGaps(record, required)
  {
    gaps := [];
    for i := 0 to |required|
      invariant gaps == RequiredGaps(record, required[..i])
    {
      assert required[..i + 1][..i] == required[..i];
      if Lacks(record, required[i]) { gaps := gaps + [Required(required[i])]; }
    }
    assert required[..|required|] == required;
  }

  /** `RecordMapping.apply`, with `MappingBlocked` carrying every gap. */
  method Apply(m: RecordMapping, record: Record) returns (r: Outcome)
    ensures r == if Output(m, record).None? then Raised
                 else if Gaps(m, record) != [] then Blocked(Gaps(m, record))
                 else Mapped(Output(m, record).value)
    ensures r.Mapped? ==> Complete(m, record)
    ensures r.Blocked? ==> !Complete(m, record)
  {
    var gaps := MissingLoop(record, m.required);
    gaps := gaps + UndeclaredGaps(SortedKeys(record.Keys - Declared(m)));
    UnblockedIffComplete(m, record);
    var mapped := FieldLoop(m.fields, m.converters, record);
    if mapped.None? {
      return Raised;
    }
    var out, listed := ListLoop(m, record, mapped.value);
    if out.None? {
      return Raised;
    }
    gaps := gaps + listed;
    return if gaps != [] then Blocked(gaps) else Mapped(out.value);
  }

  method ListLoop(m: RecordMapping, record: Record, start: Record) returns (out: Option<Record>, gaps: seq<Gap>)
    ensures out == MappedLists(m.lines, record, start)
    ensures out.Some? ==> gaps == AllListGaps(m.lines, record)
  {
    gaps := [];
    var sofar := start;
    for i := 0 to |m.lines|
      invariant gaps == AllListGaps(m.lines[..i], record)
      invariant MappedLists(m.lines[..i], record, start) == Some(sofar)
    {
      assert m.lines[..i + 1][..i] == m.lines[..i];
      var (field, lineMapping) := m.lines[i];
      if field in record {
        var applied := ApplyLines(lineMapping, record[field], field);
        if applied.None? {
          ListsStayRaised(m.lines, record, start, i + 1);
          return None, gaps;
        }
        gaps := gaps + applied.value.1;
        sofar := sofar[lineMapping.target := List(applied.value.0)];
      }
    }
    assert m.lines[..|m.lines|] == m.lines;
    out := Some(sofar);
  }

  // --- The gap list names every fault and nothing else ----------------------------------------

  predicate LineFault(m: LineMapping, line: Json, field: string, index: nat, g: Gap) {
    match g
    case NotAnObject(f, i) => f == field && i == index && !line.Obj?
    case LineRequired(f, i, name) => f == field && i == index && line.Obj? && name in m.required && LacksInLine(line.fields, name)
    case LineUndeclared(f, i, name) => f == field && i == index && line.Obj? && name in line.fields && name !in Sources(m.fields)
    case _ => false
  }

  predicate FaultAt(m: LineMapping, items: seq<Json>, field: string, i: int, g: Gap) {
    0 <= i < |items| && LineFault(m, items[i], field, i, g)
  }

  /** What is wrong with the value of a list field. */
  ghost predicate ListFault(m: LineMapping, value: Json, field: string, g: Gap) {
    if !value.List? || value.items == [] then g == NotANonEmptyList(field)
    else exists i :: FaultAt(m, value.items, field, i, g)
  }

  /** Everything that can be wrong with a record. */
  ghost predicate Fault(m: RecordMapping, record: Record, g: Gap) {
    || (g.Required? && g.name in m.required && Lacks(record, g.name))
    || (g.Undeclared? && g.name in record && g.name !in Declared(m))
    || exists l :: l in m.lines && l.0 in record && ListFault(l.1, record[l.0], l.0, g)
  }

  lemma {:induction false} LineRequiredExact(line: Record, required: seq<string>, field: string, index: nat, g: Gap)
    ensures g in LineRequiredGaps(line, required, field, index) <==>
            g.LineRequired? && g.field == field && g.index == index && g.name in required && LacksInLine(line, g.name)
  {
    if required != [] {
      var last := |required| - 1;
      LineRequiredExact(line, required[..last], field, index, g);
      assert required == required[..last] + [required[last]];
    }
  }

  lemma LineUndeclaredExact(names: seq<string>, field: string, index: nat, g: Gap)
    ensures g in LineUndeclaredGaps(names, field, index) <==>
            g.LineUndeclared? && g.field == field && g.index == index && g.name in names
  {
    var gaps := LineUndeclaredGaps(names, field, index);
    if g.LineUndeclared? && g.field == field && g.index == index && g.name in names {
      var i :| 0 <= i < |names| && names[i] == g.name;
      assert gaps[i] == g;
    }
  }

  lemma LineGapsExact(m: LineMapping, line: Json, field: string, index: nat, g: Gap)
    ensures g in LineGaps(m, line, field, index) <==> LineFault(m, line, field, index, g)
  {
    if line.Obj? {
      LineRequiredExact(line.fields, m.required, field, index, g);
      LineUndeclaredExact(SortedKeys(line.fields.Keys - Sources(m.fields)), field, index, g);
    }
  }

  lemma LastLineFault(m: LineMapping, items: seq<Json>, field: string, g: Gap)
    requires items != []
    ensures var last := |items| - 1;
            (exists i :: FaultAt(m, items, field, i, g)) <==>
            (exists i :: FaultAt(m, items[..last], field, i, g)) || LineFault(m, items[last], field, last, g)
  {
    var last := |items| - 1;
    if i :| FaultAt(m, items, field, i, g) && i < last { assert FaultAt(m, items[..last], field, i, g); }
    if i :| FaultAt(m, items[..last], field, i, g) { assert FaultAt(m, items, field, i, g); }
    if LineFault(m, items[last], field, last, g) { assert FaultAt(m, items, field, last, g); }
  }

  lemma {:induction false} LinesGapsExact(m: LineMapping, items: seq<Json>, field: string, g: Gap)
    ensures g in LinesGaps(m, items, field) <==> exists i :: FaultAt(m, items, field, i, g)
  {
    if items != [] {
      var last := |items| - 1;
      LinesGapsExact(m, items[..last], field, g);
      LineGapsExact(m, items[last], field, last, g);
      LastLineFault(m, items, field, g);
    }
  }

  lemma {:induction false} AllListGapsExact(lines: seq<(string, LineMapping)>, record: Record, g: Gap)
    ensures g in AllListGaps(lines, record) <==>
            exists l :: l in lines && l.0 in record && ListFault(l.1, record[l.0], l.0, g)
  {
    if lines != [] {
      var last := |lines| - 1;
      var l := lines[last];
      AllListGapsExact(lines[..last], record, g);
      assert lines == lines[..last] + [l];
      if l.0 in record && record[l.0].List? && record[l.0].items != [] {
        LinesGapsExact(l.1, record[l.0].items, l.0, g);
      }
    }
  }

  lemma {:induction false} RequiredExact(record: Record, required: seq<string>, g: Gap)
    ensures g in RequiredGaps(record, required) <==> g.Required? && g.name in required && Lacks(record, g.name)
  {
    if required != [] {
      var last := |required| - 1;
      RequiredExact(record, required[..last], g);
      assert required == required[..last] + [required[last]];
    }
  }

  lemma UndeclaredExact(names: seq<string>, g: Gap)
    ensures g in UndeclaredGaps(names) <==> g.Undeclared? && g.name in names
  {
    if g.Undeclared? && g.name in names {
      var i :| 0 <= i < |names| && names[i] == g.name;
      assert UndeclaredGaps(names)[i] == g;
    }
  }

  /** Every fault of a record, line faults with their index included, is in the one gap
      list, and every gap is a fault. */
  lemma GapsAreTheFaults(m: RecordMapping, record: Record, g: Gap)
    ensures g in Gaps(m, record) <==> Fault(m, record, g)
  {
    RequiredExact(record, m.required, g);
    UndeclaredExact(SortedKeys(record.Keys - Declared(m)), g);
    AllListGapsExact(m.lines, record, g);
  }

  /** When no converter raises, mapping succeeds exactly when the record has no fault. */
  lemma SucceedsIffFaultless(m: RecordMapping, record: Record)
    ensures Gaps(m, record) == [] <==> forall g :: !Fault(m, record, g)
  {
    var gaps := Gaps(m, record);
    forall g ensures g in gaps <==> Fault(m, record, g) { GapsAreTheFaults(m, record, g); }
    if gaps != [] { assert gaps[0] in gaps; }
  }

  // --- Success in plain terms -------------------------------------------------------------------

  /** Every required name is there with a value that is not null and not the empty text. */
  predicate HasAll(line: Record, required: seq<string>) {
    forall name :: name in required ==> name in line && line[name] != Null && line[name] != Str("")
  }

  predicate OnlyDeclared(line: Record, fields: Fields) {
    forall k :: k in line ==> exists i :: 0 <= i < |fields| && fields[i].0 == k
  }

  /** A non-empty list of objects, each with all that its lines require and nothing undeclared. */
  predicate GoodList(m: LineMapping, value: Json) {
    && value.List? && value.items != []
    && forall i :: 0 <= i < |value.items| ==>
         value.items[i].Obj? && HasAll(value.items[i].fields, m.required) && OnlyDeclared(value.items[i].fields, m.fields)
  }

  /** What a record needs to be mapped. */
  ghost predicate Complete(m: RecordMapping, record: Record) {
    && HasAll(record, m.required)
    && (forall name :: name in m.required && name in record ==> record[name] != List([]))
    && (forall k :: k in record ==>
          || (exists i :: 0 <= i < |m.fields| && m.fields[i].0 == k)
          || k in m.unmapped
          || (exists i :: 0 <= i < |m.lines| && m.lines[i].0 == k))
    && (forall i :: 0 <= i < |m.lines| && m.lines[i].0 in record ==> GoodList(m.lines[i].1, record[m.lines[i].0]))
  }

  lemma LineFaultlessIff(m: LineMapping, line: Json, field: string, index: nat)
    ensures (forall g :: !LineFault(m, line, field, index, g)) <==>
            line.Obj? && HasAll(line.fields, m.required) && OnlyDeclared(line.fields, m.fields)
  {
    if forall g :: !LineFault(m, line, field, index, g) {
      assert !LineFault(m, line, field, index, NotAnObject(field, index));
      forall name | name in m.required ensures name in line.fields && line.fields[name] != Null && line.fields[name] != Str("") {
        assert !LineFault(m, line, field, index, LineRequired(field, index, name));
      }
      forall k | k in line.fields ensures exists i :: 0 <= i < |m.fields| && m.fields[i].0 == k {
        assert !LineFault(m, line, field, index, LineUndeclared(field, index, k));
        var f :| f in m.fields && f.0 == k;
        var i :| 0 <= i < |m.fields| && m.fields[i] == f;
      }
    }
  }

  lemma ListFaultlessIff(m: LineMapping, value: Json, field: string)
    ensures (forall g :: !ListFault(m, value, field, g)) <==> GoodList(m, value)
  {
    if !value.List? || value.items == [] {
      assert ListFault(m, value, field, NotANonEmptyList(field));
    } else {
      forall i | 0 <= i < |value.items|
        ensures (forall g :: !LineFault(m, value.items[i], field, i, g)) <==>
                value.items[i].Obj? && HasAll(value.items[i].fields, m.required) && OnlyDeclared(value.items[i].fields, m.fields)
      {
        LineFaultlessIff(m, value.items[i], field, i);
      }
      ListFaultMeansLineFault(m, value, field);
    }
  }

  lemma ListFaultMeansLineFault(m: LineMapping, value: Json, field: string)
    requires value.List? && value.items != []
    ensures (forall g :: !ListFault(m, value, field, g)) <==>
            forall i, g :: 0 <= i < |value.items| ==> !LineFault(m, value.items[i], field, i, g)
  {
    if forall g :: !ListFault(m, value, field, g) {
      forall i, g | 0 <= i < |value.items| ensures !LineFault(m, value.items[i], field, i, g) {
        assert !ListFault(m, value, field, g);
        assert !FaultAt(m, value.items, field, i, g);
      }
    }
  }

  lemma FaultlessIsComplete(m: RecordMapping, record: Record)
    requires forall g :: !Fault(m, record, g)
    ensures Complete(m, record)
  {
    forall name | name in m.required
      ensures name in record && record[name] != Null && record[name] != Str("") && record[name] != List([])
    {
      assert !Fault(m, record, Required(name));
    }
    forall k | k in record
      ensures || (exists i :: 0 <= i < |m.fields| && m.fields[i].0 == k) || k in m.unmapped
              || (exists i :: 0 <= i < |m.lines| && m.lines[i].0 == k)
    {
      assert !Fault(m, record, Undeclared(k));
      DeclaredIff(m, k);
    }
    forall i | 0 <= i < |m.lines| && m.lines[i].0 in record ensures GoodList(m.lines[i].1, record[m.lines[i].0]) {
      ListHasNoFault(m, record, m.lines[i]);
      ListFaultlessIff(m.lines[i].1, record[m.lines[i].0], m.lines[i].0);
    }
  }

  lemma DeclaredIff(m: RecordMapping, k: string)
    ensures k in Declared(m) <==>
            || (exists i :: 0 <= i < |m.fields| && m.fields[i].0 == k) || k in m.unmapped
            || (exists i :: 0 <= i < |m.lines| && m.lines[i].0 == k)
  {
    if k in Sources(m.fields) {
      var f :| f in m.fields && f.0 == k;
      var i :| 0 <= i < |m.fields| && m.fields[i] == f;
    }
    if i :| 0 <= i < |m.fields| && m.fields[i].0 == k { assert m.fields[i] in m.fields; }
  }

  lemma CompleteIsFaultless(m: RecordMapping, record: Record, g: Gap)
    requires Complete(m, record)
    ensures !Fault(m, record, g)
  {
    if g.Undeclared? { DeclaredIff(m, g.name); }
    forall l | l in m.lines && l.0 in record ensures !ListFault(l.1, record[l.0], l.0, g) {
      var i :| 0 <= i < |m.lines| && m.lines[i] == l;
      ListFaultlessIff(l.1, record[l.0], l.0);
    }
  }

  /** Mapping is not blocked exactly when the record is complete: every required field there
      and neither null, empty text nor an empty list, every field declared, and every list
      field a non-empty list of such lines. */
  lemma UnblockedIffComplete(m: RecordMapping, record: Record)
    ensures Gaps(m, record) == [] <==> Complete(m, record)
  {
    SucceedsIffFaultless(m, record);
    if Gaps(m, record) == [] { FaultlessIsComplete(m, record); }
    if Complete(m, record) {
      forall g ensures !Fault(m, record, g) { CompleteIsFaultless(m, record, g); }
    }
  }

  // --- When a converter raises ------------------------------------------------------------------

  predicate RaisesOn(field: (string, string), converters: map<string, Converter>, record: Record) {
    && field.0 in record && record[field.0] != Null
    && field.0 in converters && converters[field.0](record[field.0]) == None
  }

  ghost predicate FieldRaises(fields: Fields, converters: map<string, Converter>, record: Record) {
    exists i :: 0 <= i < |fields| && RaisesOn(fields[i], converters, record)
  }

  ghost predicate LineRaises(m: LineMapping, items: seq<Json>) {
    exists i :: 0 <= i < |items| && items[i].Obj? && FieldRaises(m.fields, m.converters, items[i].fields)
  }

  ghost predicate ListRaises(lines: seq<(string, LineMapping)>, record: Record) {
    exists k :: 0 <= k < |lines| && lines[k].0 in record && record[lines[k].0].List?
                && LineRaises(lines[k].1, record[lines[k].0].items)
  }

  lemma {:induction false} FieldsRaiseIff(fields: Fields, converters: map<string, Converter>, record: Record)
    ensures MappedFields(fields, converters, record).None? <==> FieldRaises(fields, converters, record)
  {
    if fields != [] {
      var last := |fields| - 1;
      FieldsRaiseIff(fields[..last], converters, record);
      if i :| 0 <= i < last && RaisesOn(fields[..last][i], converters, record) { assert RaisesOn(fields[i], converters, record); }
      if i :| 0 <= i < |fields| && RaisesOn(fields[i], converters, record) && i < last {
        assert RaisesOn(fields[..last][i], converters, record);
      }
    }
  }

  lemma {:induction false} LinesRaiseIff(m: LineMapping, items: seq<Json>)
    ensures MappedLines(m, items).None? <==> LineRaises(m, items)
  {
    if items != [] {
      var last := |items| - 1;
      LinesRaiseIff(m, items[..last]);
      if items[last].Obj? { FieldsRaiseIff(m.fields, m.converters, items[last].fields); }
      if i :| 0 <= i < last && items[..last][i].Obj? && FieldRaises(m.fields, m.converters, items[..last][i].fields) {
        assert items[i].Obj? && FieldRaises(m.fields, m.converters, items[i].fields);
      }
      if i :| 0 <= i < |items| && items[i].Obj? && FieldRaises(m.fields, m.converters, items[i].fields) && i < last {
        assert items[..last][i].Obj? && FieldRaises(m.fields, m.converters, items[..last][i].fields);
      }
    }
  }

  lemma ListRaisesAt(lines: seq<(string, LineMapping)>, record: Record)
    requires lines != []
    ensures var last := |lines| - 1;
            ListRaises(lines, record) <==>
            || ListRaises(lines[..last], record)
            || (lines[last].0 in record && record[lines[last].0].List? && LineRaises(lines[last].1, record[lines[last].0].items))
  {
    var last := |lines| - 1;
    if ListRaises(lines[..last], record) {
      var k :| 0 <= k < last && lines[..last][k].0 in record && record[lines[..last][k].0].List?
               && LineRaises(lines[..last][k].1, record[lines[..last][k].0].items);
      assert lines[k] == lines[..last][k];
    }
    if ListRaises(lines, record) {
      var k :| 0 <= k < |lines| && lines[k].0 in record && record[lines[k].0].List?
               && LineRaises(lines[k].1, record[lines[k].0].items);
      if k < last { assert lines[k] == lines[..last][k]; }
    }
  }

  lemma {:induction false} ListsRaiseIff(lines: seq<(string, LineMapping)>, record: Record, out: Record)
    ensures MappedLists(lines, record, out).None? <==> ListRaises(lines, record)
  {
    if lines != [] {
      var last := |lines| - 1;
      ListsRaiseIff(lines[..last], record, out);
      ListRaisesAt(lines, record);
      if lines[last].0 in record && record[lines[last].0].List? {
        LinesRaiseIff(lines[last].1, record[lines[last].0].items);
      }
    }
  }

  /** Mapping raises exactly when a converter does, on a field or a line field that is there
      and not null. */
  lemma RaisesIff(m: RecordMapping, record: Record)
    ensures Output(m, record) == None <==> FieldRaises(m.fields, m.converters, record) || ListRaises(m.lines, record)
  {
    FieldsRaiseIff(m.fields, m.converters, record);
    var out := MappedFields(m.fields, m.converters, record);
    if out.Some? { ListsRaiseIff(m.lines, record, out.value); }
  }

  // --- Nothing carried is dropped ----------------------------------------------------------------

  predicate DistinctTargets(fields: Fields) {
    forall i, j :: 0 <= i < j < |fields| ==> fields[i].1 != fields[j].1 && fields[i].0 != fields[j].0
  }

  /** The output has each field that is there and not null under its own target, as its
      converter made it or, without one, as it was; and it has nothing else. */
  ghost predicate Exactly(fields: Fields, converters: map<string, Converter>, record: Record, out: Record) {
    && (forall i :: 0 <= i < |fields| && fields[i].0 in record && record[fields[i].0] != Null ==>
          LandsIn(fields[i], converters, record[fields[i].0], out))
    && (forall t :: t in out ==> exists i :: 0 <= i < |fields| && fields[i].1 == t
                                             && fields[i].0 in record && record[fields[i].0] != Null)
  }

  predicate LandsIn(field: (string, string), converters: map<string, Converter>, v: Json, out: Record) {
    && field.1 in out
    && if field.0 in converters then converters[field.0](v) == Some(out[field.1]) else out[field.1] == v
  }

  lemma {:induction false} FieldsAreCarried(fields: Fields, converters: map<string, Converter>, record: Record)
    requires DistinctTargets(fields) && MappedFields(fields, converters, record).Some?
    ensures Exactly(fields, converters, record, MappedFields(fields, converters, record).value)
  {
    if fields != [] {
      var last := |fields| - 1;
      FieldsAreCarried(fields[..last], converters, record);
      var before, after := MappedFields(fields[..last], converters, record).value, MappedFields(fields, converters, record).value;
      forall t | t in after
        ensures exists i :: 0 <= i < |fields| && fields[i].1 == t && fields[i].0 in record && record[fields[i].0] != Null
      {
        if t in before {
          var i :| 0 <= i < last && fields[..last][i].1 == t && fields[..last][i].0 in record && record[fields[..last][i].0] != Null;
          assert fields[i].1 == t;
        } else {
          assert fields[last].1 == t;
        }
      }
      forall i | 0 <= i < |fields| && fields[i].0 in record && record[fields[i].0] != Null
        ensures LandsIn(fields[i], converters, record[fields[i].0], after)
      {
        if i < last {
          assert fields[..last][i] == fields[i];
          assert LandsIn(fields[i], converters, record[fields[i].0], before);
        }
      }
    }
  }

  /** Each line of a faultless list becomes one line of the output, with nothing dropped. */
  lemma {:induction false} LinesAreCarried(m: LineMapping, items: seq<Json>)
    requires DistinctTargets(m.fields) && MappedLines(m, items).Some?
    requires forall i :: 0 <= i < |items| ==> items[i].Obj?
    ensures var out := MappedLines(m, items).value;
            |out| == |items| && forall i :: 0 <= i < |items| ==>
              out[i].Obj? && Exactly(m.fields, m.converters, items[i].fields, out[i].fields)
  {
    if items != [] {
      var last := |items| - 1;
      LinesAreCarried(m, items[..last]);
      FieldsAreCarried(m.fields, m.converters, items[last].fields);
      assert forall i :: 0 <= i < last ==> items[..last][i] == items[i];
    }
  }

  /** No two fields, list fields included, share a target. */
  ghost predicate WellFormed(m: RecordMapping) {
    && DistinctTargets(m.fields)
    && ListsApart(m.lines)
    && forall i, k :: 0 <= i < |m.fields| && 0 <= k < |m.lines| ==> m.fields[i].1 != m.lines[k].1.target
  }

  ghost predicate ListsApart(lines: seq<(string, LineMapping)>) {
    && (forall k :: 0 <= k < |lines| ==> DistinctTargets(lines[k].1.fields))
    && (forall j, k :: 0 <= j < k < |lines| ==> lines[j].1.target != lines[k].1.target)
  }

  /** The targets that the list fields carried by a record land in. */
  ghost function ListTargetsOf(lines: seq<(string, LineMapping)>, record: Record): set<string> {
    set l | l in lines && l.0 in record :: l.1.target
  }

  /** Each line of a carried list is a line of the output, with nothing dropped. */
  ghost predicate ListCarried(l: (string, LineMapping), record: Record, out: Record)
    requires l.0 in record
  {
    && record[l.0].List? && l.1.target in out && out[l.1.target].List?
    && |out[l.1.target].items| == |record[l.0].items|
    && forall i :: 0 <= i < |record[l.0].items| ==>
         && record[l.0].items[i].Obj? && out[l.1.target].items[i].Obj?
         && Exactly(l.1.fields, l.1.converters, record[l.0].items[i].fields, out[l.1.target].items[i].fields)
  }

  ghost predicate ListsCarried(lines: seq<(string, LineMapping)>, record: Record, out: Record) {
    forall k :: 0 <= k < |lines| && lines[k].0 in record ==> ListCarried(lines[k], record, out)
  }

  ghost predicate NothingDropped(m: RecordMapping, record: Record, out: Record) {
    && Exactly(m.fields, m.converters, record, out - ListTargetsOf(m.lines, record))
    && ListsCarried(m.lines, record, out)
  }

  ghost predicate ListFaultless(l: (string, LineMapping), record: Record) {
    l.0 in record ==> forall g :: !ListFault(l.1, record[l.0], l.0, g)
  }

  lemma ListIsCarried(l: (string, LineMapping), record: Record, before: Record)
    requires DistinctTargets(l.1.fields) && l.0 in record
    requires ListFaultless(l, record) && MappedList(l.1, record[l.0]).Some?
    ensures ListCarried(l, record, before[l.1.target := List(MappedList(l.1, record[l.0]).value)])
  {
    assert !ListFault(l.1, record[l.0], l.0, NotANonEmptyList(l.0));
    var items := record[l.0].items;
    forall i | 0 <= i < |items| ensures items[i].Obj? {
      assert !ListFault(l.1, record[l.0], l.0, NotAnObject(l.0, i));
      assert !FaultAt(l.1, items, l.0, i, NotAnObject(l.0, i));
    }
    LinesAreCarried(l.1, items);
  }

  lemma OtherTargetKept(l: (string, LineMapping), record: Record, before: Record, target: string, v: Json)
    requires l.0 in record && ListCarried(l, record, before) && l.1.target != target
    ensures ListCarried(l, record, before[target := v])
  {
  }

  lemma LastTarget(lines: seq<(string, LineMapping)>, record: Record)
    requires lines != []
    ensures var last := lines[|lines| - 1];
            ListTargetsOf(lines, record) ==
            ListTargetsOf(lines[..|lines| - 1], record) + if last.0 in record then {last.1.target} else {}
  {
    var init, last := lines[..|lines| - 1], lines[|lines| - 1];
    assert lines == init + [last];
    assert forall l :: l in lines <==> l in init || l == last;
  }

  lemma SetAndDrop(out: Record, targets: set<string>, target: string, v: Json, start: Record)
    requires out - targets == start && target !in start
    ensures out[target := v] - (targets + {target}) == start
  {
    var a := out[target := v] - (targets + {target});
    assert forall k :: k in start <==> k in out && k !in targets;
    assert forall k :: k in a <==> k in out && k !in targets && k != target;
    assert forall k :: k in start ==> k in out - targets && start[k] == out[k];
  }

  /** All list fields, one after the other: each lands in its own target and nowhere else. */
  lemma {:induction false} ListsAreCarried(lines: seq<(string, LineMapping)>, record: Record, start: Record)
    requires ListsApart(lines) && MappedLists(lines, record, start).Some?
    requires forall k :: 0 <= k < |lines| ==> lines[k].1.target !in start && ListFaultless(lines[k], record)
    ensures var out := MappedLists(lines, record, start).value;
            out - ListTargetsOf(lines, record) == start && ListsCarried(lines, record, out)
  {
    if lines == [] {
      assert start - {} == start;
      assert ListTargetsOf([], record) == {};
    } else {
      var n := |lines| - 1;
      var init, l := lines[..n], lines[n];
      ListsAreCarried(init, record, start);
      LastTarget(lines, record);
      if l.0 in record {
        LastListIsCarried(lines, record, start);
      } else {
        var out := MappedLists(lines, record, start).value;
        forall k | 0 <= k < |lines| && lines[k].0 in record ensures ListCarried(lines[k], record, out) {
          assert init[k] == lines[k];
        }
      }
    }
  }

  lemma LastListIsCarried(lines: seq<(string, LineMapping)>, record: Record, start: Record)
    requires lines != [] && ListsApart(lines) && MappedLists(lines, record, start).Some?
    requires var n := |lines| - 1;
             && lines[n].0 in record && lines[n].1.target !in start && ListFaultless(lines[n], record)
             && MappedLists(lines[..n], record, start).Some?
             && var out := MappedLists(lines[..n], record, start).value;
                out - ListTargetsOf(lines[..n], record) == start && ListsCarried(lines[..n], record, out)
    ensures var out := MappedLists(lines, record, start).value;
            out - ListTargetsOf(lines, record) == start && ListsCarried(lines, record, out)
  {
    var n := |lines| - 1;
    var l, before := lines[n], MappedLists(lines[..n], record, start).value;
    var v := List(MappedList(l.1, record[l.0]).value);
    LastTarget(lines, record);
    SetAndDrop(before, ListTargetsOf(lines[..n], record), l.1.target, v, start);
    ListIsCarried(l, record, before);
    forall k | 0 <= k < n && lines[k].0 in record ensures ListCarried(lines[k], record, before[l.1.target := v]) {
      assert lines[..n][k] == lines[k];
      OtherTargetKept(lines[k], record, before, l.1.target, v);
    }
  }

  lemma TargetsApart(m: RecordMapping, record: Record)
    requires WellFormed(m) && MappedFields(m.fields, m.converters, record).Some?
    ensures forall k :: 0 <= k < |m.lines| ==>
              m.lines[k].1.target !in MappedFields(m.fields, m.converters, record).value
  {
    FieldsAreCarried(m.fields, m.converters, record);
  }

  lemma FaultlessParts(m: RecordMapping, record: Record)
    requires Gaps(m, record) == []
    ensures forall k :: k in record ==> k in Declared(m)
    ensures forall k :: 0 <= k < |m.lines| ==> ListFaultless(m.lines[k], record)
  {
    SucceedsIffFaultless(m, record);
    forall k | k in record ensures k in Declared(m) { assert !Fault(m, record, Undeclared(k)); }
    forall k | 0 <= k < |m.lines| ensures ListFaultless(m.lines[k], record) {
      ListHasNoFault(m, record, m.lines[k]);
    }
  }

  lemma ListHasNoFault(m: RecordMapping, record: Record, l: (string, LineMapping))
    requires l in m.lines && forall g :: !Fault(m, record, g)
    ensures ListFaultless(l, record)
  {
    if l.0 in record {
      forall g ensures !ListFault(l.1, record[l.0], l.0, g) { assert !Fault(m, record, g); }
    }
  }

  /** On success, every carried non-null field, those of all lines included, is in the
      output under its own target with its converted value, and nothing else is; and every
      field of the record was declared. */
  lemma NoSilentDrops(m: RecordMapping, record: Record)
    requires WellFormed(m) && Gaps(m, record) == [] && Output(m, record).Some?
    ensures NothingDropped(m, record, Output(m, record).value)
    ensures forall k :: k in record ==> k in Declared(m)
  {
    FaultlessParts(m, record);
    TargetsApart(m, record);
    FieldsAreCarried(m.fields, m.converters, record);
    ListsAreCarried(m.lines, record, MappedFields(m.fields, m.converters, record).value);
  }

  // --- The three tables -----------------------------------------------------------------------------

  /** Only integers convert; `render` renders an amount in major units. */
  function MinorToMajor(render: int -> string): Converter {
    (v: Json) => if v.Int? then Some(Str(render(v.n))) else None
  }

  function Item(render: int -> string): RecordMapping {
    RecordMapping(
      [("sku", "itemId"), ("name", "displayName"), ("upc", "upcCode"), ("shelf_life_days", "shelfLife"),
       ("unit_price_minor", "basePrice")],
      ["sku", "name"], ["item_id", "notes"], map["unit_price_minor" := MinorToMajor(render)], [])
  }

  const ADJUSTMENT_LINES: LineMapping := LineMapping(
    "inventory",
    [("sku", "item"), ("quantity_delta", "adjustQtyBy"), ("lot_number", "receiptInventoryNumber"), ("expiry_date", "expirationDate")],
    ["sku", "quantity_delta"], map[])

  const ADJUSTMENT: RecordMapping := RecordMapping(
    [("account", "account"), ("location", "adjLocation"), ("memo", "memo")],
    ["account", "location", "lines"], ["adjustment_id", "counted_by"], map[], [("lines", ADJUSTMENT_LINES)])

  const TRANSFER_LINES: LineMapping := LineMapping(
    "item", [("sku", "item"), ("quantity", "quantity"), ("lot_number", "issueInventoryNumber")],
    ["sku", "quantity"], map[])

  const TRANSFER: RecordMapping := RecordMapping(
    [("location_from", "location"), ("location_to", "transferLocation"), ("expected_ship_date", "shipDate"), ("memo", "memo")],
    ["location_from", "location_to", "lines"], ["transfer_id"], map[], [("lines", TRANSFER_LINES)])

  predicate AllDiffer(names: seq<string>) {
    names == [] || (names[0] !in names[1..] && AllDiffer(names[1..]))
  }

  lemma {:induction false} AllDifferIff(names: seq<string>, i: nat, j: nat)
    requires AllDiffer(names) && i < j < |names|
    ensures names[i] != names[j]
  {
    if i == 0 {
      assert names[j] == names[1..][j - 1];
    } else {
      AllDifferIff(names[1..], i - 1, j - 1);
    }
  }

  lemma DistinctIf(fields: Fields, sources: seq<string>, targets: seq<string>)
    requires |fields| == |sources| == |targets| && AllDiffer(sources) && AllDiffer(targets)
    requires forall i :: 0 <= i < |fields| ==> fields[i] == (sources[i], targets[i])
    ensures DistinctTargets(fields)
  {
    forall i, j | 0 <= i < j < |fields| ensures fields[i].1 != fields[j].1 && fields[i].0 != fields[j].0 {
      AllDifferIff(sources, i, j);
      AllDifferIff(targets, i, j);
    }
  }

  /** A name that differs from all names of a list in which no two are equal. */
  lemma OneMoreName(name: string, names: seq<string>)
    requires name !in names && AllDiffer(names)
    ensures AllDiffer([name] + names)
  {
    assert ([name] + names)[1..] == names;
  }

  lemma ThreeDiffer(a: string, b: string, c: string)
    requires a != b && a != c && b != c
    ensures AllDiffer([a, b, c])
  {
    assert [a, b, c][1..] == [b, c] && [b, c][1..] == [c] && [c][1..] == [];
    assert AllDiffer([c]) && AllDiffer([b, c]);
  }

  const ITEM_SOURCES: seq<string> := ["sku", "name", "upc", "shelf_life_days", "unit_price_minor"]
  const ITEM_TARGETS: seq<string> := ["itemId", "displayName", "upcCode", "shelfLife", "basePrice"]

  lemma ItemSourcesDiffer()
    ensures AllDiffer(ITEM_SOURCES)
  {
    ThreeDiffer("upc", "shelf_life_days", "unit_price_minor");
    OneMoreName("name", ["upc", "shelf_life_days", "unit_price_minor"]);
    assert ["name"] + ["upc", "shelf_life_days", "unit_price_minor"] == ["name", "upc", "shelf_life_days", "unit_price_minor"];
    OneMoreName("sku", ["name", "upc", "shelf_life_days", "unit_price_minor"]);
    assert ["sku"] + ["name", "upc", "shelf_life_days", "unit_price_minor"] == ["sku", "name", "upc", "shelf_life_days", "unit_price_minor"];
  }

  lemma ItemTargetsDiffer()
    ensures AllDiffer(ITEM_TARGETS)
  {
    ThreeDiffer("upcCode", "shelfLife", "basePrice");
    OneMoreName("displayName", ["upcCode", "shelfLife", "basePrice"]);
    assert ["displayName"] + ["upcCode", "shelfLife", "basePrice"] == ["displayName", "upcCode", "shelfLife", "basePrice"];
    OneMoreName("itemId", ["displayName", "upcCode", "shelfLife", "basePrice"]);
    assert ["itemId"] + ["displayName", "upcCode", "shelfLife", "basePrice"] == ["itemId", "displayName", "upcCode", "shelfLife", "basePrice"];
  }

  lemma ItemTargets(render: int -> string)
    ensures DistinctTargets(Item(render).fields)
  {
    ItemSourcesDiffer();
    ItemTargetsDiffer();
    DistinctIf(Item(render).fields, ITEM_SOURCES, ITEM_TARGETS);
  }

  const ADJUSTMENT_SOURCES: seq<string> := ["account", "location", "memo"]
  const ADJUSTMENT_TARGETS: seq<string> := ["account", "adjLocation", "memo"]

  lemma AdjustmentSourcesDiffer()
    ensures AllDiffer(ADJUSTMENT_SOURCES)
  {
    ThreeDiffer("account", "location", "memo");
  }

  lemma AdjustmentTargetsDiffer()
    ensures AllDiffer(ADJUSTMENT_TARGETS)
  {
    ThreeDiffer("account", "adjLocation", "memo");
  }

  lemma AdjustmentTargets()
    ensures DistinctTargets(ADJUSTMENT.fields)
  {
    AdjustmentSourcesDiffer();
    AdjustmentTargetsDiffer();
    DistinctIf(ADJUSTMENT.fields, ADJUSTMENT_SOURCES, ADJUSTMENT_TARGETS);
  }

  const ADJUSTMENT_LINE_SOURCES: seq<string> := ["sku", "quantity_delta", "lot_number", "expiry_date"]
  const ADJUSTMENT_LINE_TARGETS: seq<string> := ["item", "adjustQtyBy", "receiptInventoryNumber", "expirationDate"]

  lemma AdjustmentLineSourcesDiffer()
    ensures AllDiffer(ADJUSTMENT_LINE_SOURCES)
  {
    ThreeDiffer("quantity_delta", "lot_number", "expiry_date");
    OneMoreName("sku", ["quantity_delta", "lot_number", "expiry_date"]);
    assert ["sku"] + ["quantity_delta", "lot_number", "expiry_date"] == ["sku", "quantity_delta", "lot_number", "expiry_date"];
  }

  lemma AdjustmentLineTargetsDiffer()
    ensures AllDiffer(ADJUSTMENT_LINE_TARGETS)
  {
    ThreeDiffer("adjustQtyBy", "receiptInventoryNumber", "expirationDate");
    OneMoreName("item", ["adjustQtyBy", "receiptInventoryNumber", "expirationDate"]);
    assert ["item"] + ["adjustQtyBy", "receiptInventoryNumber", "expirationDate"] == ["item", "adjustQtyBy", "receiptInventoryNumber", "expirationDate"];
  }

  lemma AdjustmentLineTargets()
    ensures DistinctTargets(ADJUSTMENT_LINES.fields)
  {
    AdjustmentLineSourcesDiffer();
    AdjustmentLineTargetsDiffer();
    DistinctIf(ADJUSTMENT_LINES.fields, ADJUSTMENT_LINE_SOURCES, ADJUSTMENT_LINE_TARGETS);
  }

  const TRANSFER_SOURCES: seq<string> := ["location_from", "location_to", "expected_ship_date", "memo"]
  const TRANSFER_TARGETS: seq<string> := ["location", "transferLocation", "shipDate", "memo"]

  lemma TransferSourcesDiffer()
    ensures AllDiffer(TRANSFER_SOURCES)
  {
    ThreeDiffer("location_to", "expected_ship_date", "memo");
    OneMoreName("location_from", ["location_to", "expected_ship_date", "memo"]);
    assert ["location_from"] + ["location_to", "expected_ship_date", "memo"] == ["location_from", "location_to", "expected_ship_date", "memo"];
  }

  lemma TransferTargetsDiffer()
    ensures AllDiffer(TRANSFER_TARGETS)
  {
    ThreeDiffer("transferLocation", "shipDate", "memo");
    OneMoreName("location", ["transferLocation", "shipDate", "memo"]);
    assert ["location"] + ["transferLocation", "shipDate", "memo"] == ["location", "transferLocation", "shipDate", "memo"];
  }

  lemma TransferTargets()
    ensures DistinctTargets(TRANSFER.fields)
  {
    TransferSourcesDiffer();
    TransferTargetsDiffer();
    DistinctIf(TRANSFER.fields, TRANSFER_SOURCES, TRANSFER_TARGETS);
  }

  const TRANSFER_LINE_SOURCES: seq<string> := ["sku", "quantity", "lot_number"]
  const TRANSFER_LINE_TARGETS: seq<string> := ["item", "quantity", "issueInventoryNumber"]

  lemma TransferLineSourcesDiffer()
    ensures AllDiffer(TRANSFER_LINE_SOURCES)
  {
    ThreeDiffer("sku", "quantity", "lot_number");
  }

  lemma TransferLineTargetsDiffer()
    ensures AllDiffer(TRANSFER_LINE_TARGETS)
  {
    ThreeDiffer("item", "quantity", "issueInventoryNumber");
  }

  lemma TransferLineTargets()
    ensures DistinctTargets(TRANSFER_LINES.fields)
  {
    TransferLineSourcesDiffer();
    TransferLineTargetsDiffer();
    DistinctIf(TRANSFER_LINES.fields, TRANSFER_LINE_SOURCES, TRANSFER_LINE_TARGETS);
  }

  lemma ItemIsWellFormed(render: int -> string)
    ensures WellFormed(Item(render))
  {
    ItemTargets(render);
  }

  lemma ListTargets()
    ensures forall i :: 0 <= i < |ADJUSTMENT.fields| ==> ADJUSTMENT.fields[i].1 != ADJUSTMENT_LINES.target
    ensures forall i :: 0 <= i < |TRANSFER.fields| ==> TRANSFER.fields[i].1 != TRANSFER_LINES.target
  {
  }

  lemma AdjustmentIsWellFormed()
    ensures WellFormed(ADJUSTMENT)
  {
    AdjustmentTargets();
    AdjustmentLineTargets();
    ListTargets();
  }

  lemma TransferIsWellFormed()
    ensures WellFormed(TRANSFER)
  {
    TransferTargets();
    TransferLineTargets();
    ListTargets();
  }

  /** The three tables never map two fields to one target: each of them maps without drops. */
  lemma TablesDropNothing(render: int -> string, m: RecordMapping, record: Record)
    requires m == Item(render) || m == ADJUSTMENT || m == TRANSFER
    requires Gaps(m, record) == [] && Output(m, record).Some?
    ensures NothingDropped(m, record, Output(m, record).value)
    ensures forall k :: k in record ==> k in Declared(m)
  {
    ItemIsWellFormed(render);
    AdjustmentIsWellFormed();
    TransferIsWellFormed();
    NoSilentDrops(m, record);
  }

  // --- What the three tables mean ---------------------------------------------------------------------

  /** A field that is there lands in the target, as it is. */
  predicate Moved(record: Record, source: string, out: Record, target: string) {
    source in record && record[source] != Null ==> target in out && out[target] == record[source]
  }

  lemma FieldMoves(fields: Fields, converters: map<string, Converter>, record: Record, out: Record, i: nat)
    requires Exactly(fields, converters, record, out) && i < |fields| && fields[i].0 !in converters
    ensures Moved(record, fields[i].0, out, fields[i].1)
  {
    if fields[i].0 in record && record[fields[i].0] != Null { assert LandsIn(fields[i], converters, record[fields[i].0], out); }
  }

  lemma MovesPastLists(record: Record, source: string, out: Record, targets: set<string>, target: string)
    requires Moved(record, source, out - targets, target)
    ensures Moved(record, source, out, target)
  {
  }

  lemma ItemFields(render: int -> string, record: Record, out: Record)
    requires Exactly(Item(render).fields, Item(render).converters, record, out)
    ensures Moved(record, "sku", out, "itemId") && Moved(record, "name", out, "displayName")
    ensures Moved(record, "upc", out, "upcCode") && Moved(record, "shelf_life_days", out, "shelfLife")
    ensures "unit_price_minor" in record && record["unit_price_minor"].Int? ==>
              "basePrice" in out && out["basePrice"] == Str(render(record["unit_price_minor"].n))
  {
    var fields, converters := Item(render).fields, Item(render).converters;
    FieldMoves(fields, converters, record, out, 0);
    FieldMoves(fields, converters, record, out, 1);
    FieldMoves(fields, converters, record, out, 2);
    FieldMoves(fields, converters, record, out, 3);
    if "unit_price_minor" in record && record["unit_price_minor"].Int? {
      assert LandsIn(fields[4], converters, record["unit_price_minor"], out);
    }
  }

  predicate There(record: Record, name: string) {
    name in record && record[name] != Null && record[name] != Str("")
  }

  lemma ItemRequires(render: int -> string, record: Record)
    requires Gaps(Item(render), record) == []
    ensures There(record, "sku") && There(record, "name")
  {
    UnblockedIffComplete(Item(render), record);
    assert Item(render).required[0] == "sku" && Item(render).required[1] == "name";
  }

  lemma NoListsNoTargets(lines: seq<(string, LineMapping)>, record: Record, out: Record)
    requires lines == []
    ensures out - ListTargetsOf(lines, record) == out
  {
    assert ListTargetsOf(lines, record) == {};
  }

  lemma ItemLands(render: int -> string, record: Record)
    requires Gaps(Item(render), record) == [] && Output(Item(render), record).Some?
    ensures var out := Output(Item(render), record).value;
            Exactly(Item(render).fields, Item(render).converters, record, out)
  {
    ItemIsWellFormed(render);
    NoSilentDrops(Item(render), record);
    NoListsNoTargets(Item(render).lines, record, Output(Item(render), record).value);
  }

  /** A table with one list field, which it requires. */
  lemma OneListTable(m: RecordMapping, l: (string, LineMapping), record: Record)
    requires m.lines == [l] && l.0 in m.required && WellFormed(m)
    requires Gaps(m, record) == [] && Output(m, record).Some?
    ensures var out := Output(m, record).value;
            && HasAll(record, m.required) && l.0 in record && GoodList(l.1, record[l.0]) && ListCarried(l, record, out)
            && Exactly(m.fields, m.converters, record, out - ListTargetsOf(m.lines, record))
  {
    NoSilentDrops(m, record);
    UnblockedIffComplete(m, record);
    assert m.lines[0] == l;
  }

  /** An item: both identifying fields are there; each field lands under its NetSuite name, a
      price as rendered; and it raises exactly on a price that is no integer. */
  lemma ItemMeans(render: int -> string, record: Record)
    requires Gaps(Item(render), record) == []
    ensures There(record, "sku") && There(record, "name")
    ensures Output(Item(render), record) == None <==>
            "unit_price_minor" in record && record["unit_price_minor"] != Null && !record["unit_price_minor"].Int?
    ensures Output(Item(render), record).Some? ==>
              var out := Output(Item(render), record).value;
              && Moved(record, "sku", out, "itemId") && Moved(record, "name", out, "displayName")
              && Moved(record, "upc", out, "upcCode") && Moved(record, "shelf_life_days", out, "shelfLife")
              && ("unit_price_minor" in record && record["unit_price_minor"].Int? ==>
                    "basePrice" in out && out["basePrice"] == Str(render(record["unit_price_minor"].n)))
  {
    ItemRequires(render, record);
    ItemRaisesIff(render, record);
    if Output(Item(render), record).Some? {
      ItemLands(render, record);
      ItemFields(render, record, Output(Item(render), record).value);
    }
  }

  lemma ItemRaisesIff(render: int -> string, record: Record)
    ensures Output(Item(render), record) == None <==>
            "unit_price_minor" in record && record["unit_price_minor"] != Null && !record["unit_price_minor"].Int?
  {
    var m := Item(render);
    RaisesIff(m, record);
    assert m.lines == [] && m.converters.Keys == {"unit_price_minor"};
    assert m.fields[4].0 == "unit_price_minor";
    assert RaisesOn(m.fields[4], m.converters, record) <==>
           "unit_price_minor" in record && record["unit_price_minor"] != Null && !record["unit_price_minor"].Int?;
    if i :| 0 <= i < |m.fields| && RaisesOn(m.fields[i], m.converters, record) {
      assert m.fields[i].0 == "unit_price_minor";
    }
  }

  predicate AdjustmentHead(record: Record, out: Record) {
    && There(record, "account") && There(record, "location")
    && Moved(record, "account", out, "account") && Moved(record, "location", out, "adjLocation") && Moved(record, "memo", out, "memo")
  }

  lemma AdjustmentHeadMeans(record: Record, out: Record, targets: set<string>)
    requires HasAll(record, ADJUSTMENT.required) && Exactly(ADJUSTMENT.fields, ADJUSTMENT.converters, record, out - targets)
    ensures AdjustmentHead(record, out)
  {
    assert ADJUSTMENT.required[0] == "account" && ADJUSTMENT.required[1] == "location";
    AdjustmentFields(record, out - targets);
    MovesPastLists(record, "account", out, targets, "account");
    MovesPastLists(record, "location", out, targets, "adjLocation");
    MovesPastLists(record, "memo", out, targets, "memo");
  }

  lemma AdjustedLines(items: seq<Json>, mapped: seq<Json>)
    requires |mapped| == |items|
    requires forall i :: 0 <= i < |items| ==>
               && items[i].Obj? && mapped[i].Obj? && HasAll(items[i].fields, ADJUSTMENT_LINES.required)
               && Exactly(ADJUSTMENT_LINES.fields, ADJUSTMENT_LINES.converters, items[i].fields, mapped[i].fields)
    ensures forall i :: 0 <= i < |items| ==> AdjustedLine(items[i].fields, mapped[i].fields)
  {
    forall i | 0 <= i < |items| ensures AdjustedLine(items[i].fields, mapped[i].fields) {
      AdjustedLineFields(items[i].fields, mapped[i].fields);
    }
  }

  /** The list at `source` became the list at `target`, line by line. */
  predicate ListMoved(record: Record, source: string, out: Record, target: string) {
    && source in record && record[source].List? && record[source].items != []
    && target in out && out[target].List? && |out[target].items| == |record[source].items|
    && forall i :: 0 <= i < |record[source].items| ==> record[source].items[i].Obj? && out[target].items[i].Obj?
  }

  /** An adjustment: account, location and memo land under their NetSuite names, and each line's
      item, quantity, lot and expiry in the line of the same place; what is required is there. */
  lemma AdjustmentMeans(record: Record)
    requires Gaps(ADJUSTMENT, record) == [] && Output(ADJUSTMENT, record).Some?
    ensures var out := Output(ADJUSTMENT, record).value;
            && AdjustmentHead(record, out) && ListMoved(record, "lines", out, "inventory")
            && forall i :: 0 <= i < |record["lines"].items| ==>
                 AdjustedLine(record["lines"].items[i].fields, out["inventory"].items[i].fields)
  {
    var out := Output(ADJUSTMENT, record).value;
    AdjustmentIsWellFormed();
    assert ADJUSTMENT.required[2] == "lines";
    OneListTable(ADJUSTMENT, ("lines", ADJUSTMENT_LINES), record);
    AdjustmentHeadMeans(record, out, ListTargetsOf(ADJUSTMENT.lines, record));
    AdjustedLines(record["lines"].items, out["inventory"].items);
  }

  predicate AdjustedLine(line: Record, out: Record) {
    && There(line, "sku") && There(line, "quantity_delta")
    && Moved(line, "sku", out, "item") && Moved(line, "quantity_delta", out, "adjustQtyBy")
    && Moved(line, "lot_number", out, "receiptInventoryNumber") && Moved(line, "expiry_date", out, "expirationDate")
  }

  lemma AdjustedLineFields(line: Record, out: Record)
    requires Exactly(ADJUSTMENT_LINES.fields, ADJUSTMENT_LINES.converters, line, out) && HasAll(line, ADJUSTMENT_LINES.required)
    ensures AdjustedLine(line, out)
  {
    assert ADJUSTMENT_LINES.required[0] == "sku" && ADJUSTMENT_LINES.required[1] == "quantity_delta";
    FieldMoves(ADJUSTMENT_LINES.fields, ADJUSTMENT_LINES.converters, line, out, 0);
    FieldMoves(ADJUSTMENT_LINES.fields, ADJUSTMENT_LINES.converters, line, out, 1);
    FieldMoves(ADJUSTMENT_LINES.fields, ADJUSTMENT_LINES.converters, line, out, 2);
    FieldMoves(ADJUSTMENT_LINES.fields, ADJUSTMENT_LINES.converters, line, out, 3);
  }

  lemma AdjustmentFields(record: Record, out: Record)
    requires Exactly(ADJUSTMENT.fields, ADJUSTMENT.converters, record, out)
    ensures Moved(record, "account", out, "account") && Moved(record, "location", out, "adjLocation") && Moved(record, "memo", out, "memo")
  {
    FieldMoves(ADJUSTMENT.fields, ADJUSTMENT.converters, record, out, 0);
    FieldMoves(ADJUSTMENT.fields, ADJUSTMENT.converters, record, out, 1);
    FieldMoves(ADJUSTMENT.fields, ADJUSTMENT.converters, record, out, 2);
  }

  predicate TransferHead(record: Record, out: Record) {
    && There(record, "location_from") && There(record, "location_to")
    && Moved(record, "location_from", out, "location") && Moved(record, "location_to", out, "transferLocation")
    && Moved(record, "expected_ship_date", out, "shipDate") && Moved(record, "memo", out, "memo")
  }

  lemma TransferHeadMeans(record: Record, out: Record, targets: set<string>)
    requires HasAll(record, TRANSFER.required) && Exactly(TRANSFER.fields, TRANSFER.converters, record, out - targets)
    ensures TransferHead(record, out)
  {
    assert TRANSFER.required[0] == "location_from" && TRANSFER.required[1] == "location_to";
    TransferFields(record, out - targets);
    MovesPastLists(record, "location_from", out, targets, "location");
    MovesPastLists(record, "location_to", out, targets, "transferLocation");
    MovesPastLists(record, "expected_ship_date", out, targets, "shipDate");
    MovesPastLists(record, "memo", out, targets, "memo");
  }

  lemma TransferredLines(items: seq<Json>, mapped: seq<Json>)
    requires |mapped| == |items|
    requires forall i :: 0 <= i < |items| ==>
               && items[i].Obj? && mapped[i].Obj? && HasAll(items[i].fields, TRANSFER_LINES.required)
               && Exactly(TRANSFER_LINES.fields, TRANSFER_LINES.converters, items[i].fields, mapped[i].fields)
    ensures forall i :: 0 <= i < |items| ==> TransferredLine(items[i].fields, mapped[i].fields)
  {
    forall i | 0 <= i < |items| ensures TransferredLine(items[i].fields, mapped[i].fields) {
      TransferredLineFields(items[i].fields, mapped[i].fields);
    }
  }

  /** A transfer: both locations, the ship date and the memo, and each line's item, quantity and
      lot; what is required is there. */
  lemma TransferMeans(record: Record)
    requires Gaps(TRANSFER, record) == [] && Output(TRANSFER, record).Some?
    ensures var out := Output(TRANSFER, record).value;
            && TransferHead(record, out) && ListMoved(record, "lines", out, "item")
            && forall i :: 0 <= i < |record["lines"].items| ==>
                 TransferredLine(record["lines"].items[i].fields, out["item"].items[i].fields)
  {
    var out := Output(TRANSFER, record).value;
    TransferIsWellFormed();
    assert TRANSFER.required[2] == "lines";
    OneListTable(TRANSFER, ("lines", TRANSFER_LINES), record);
    TransferHeadMeans(record, out, ListTargetsOf(TRANSFER.lines, record));
    TransferredLines(record["lines"].items, out["item"].items);
  }

  predicate TransferredLine(line: Record, out: Record) {
    && There(line, "sku") && There(line, "quantity")
    && Moved(line, "sku", out, "item") && Moved(line, "quantity", out, "quantity")
    && Moved(line, "lot_number", out, "issueInventoryNumber")
  }

  lemma TransferredLineFields(line: Record, out: Record)
    requires Exactly(TRANSFER_LINES.fields, TRANSFER_LINES.converters, line, out) && HasAll(line, TRANSFER_LINES.required)
    ensures TransferredLine(line, out)
  {
    assert TRANSFER_LINES.required[0] == "sku" && TRANSFER_LINES.required[1] == "quantity";
    FieldMoves(TRANSFER_LINES.fields, TRANSFER_LINES.converters, line, out, 0);
    FieldMoves(TRANSFER_LINES.fields, TRANSFER_LINES.converters, line, out, 1);
    FieldMoves(TRANSFER_LINES.fields, TRANSFER_LINES.converters, line, out, 2);
  }

  lemma TransferFields(record: Record, out: Record)
    requires Exactly(TRANSFER.fields, TRANSFER.converters, record, out)
    ensures Moved(record, "location_from", out, "location") && Moved(record, "location_to", out, "transferLocation")
    ensures Moved(record, "expected_ship_date", out, "shipDate") && Moved(record, "memo", out, "memo")
  {
    FieldMoves(TRANSFER.fields, TRANSFER.converters, record, out, 0);
    FieldMoves(TRANSFER.fields, TRANSFER.converters, record, out, 1);
    FieldMoves(TRANSFER.fields, TRANSFER.converters, record, out, 2);
    FieldMoves(TRANSFER.fields, TRANSFER.converters, record, out, 3);
  }
}
