/** Running the function of a header on the program image, and what its search should find. */
module Runtime {
  import opened Parser
  import opened Linker
  import opened Syntax

  datatype Entry = Entry(name: string, data: string)

  /** What the caller of the lookup sees: the return value, and `data` afterwards. */
  datatype Answer = Answer(found: bool, data: string)

  // ---------------------------------------------------------------- running a function

  /** `Cursor` points at a row of the table, or just past its end; `Unset` is a pointer without a value. */
  datatype Value = Truth(truth: bool) | Chars(text: string) | Cursor(row: nat) | Address(pointer: Pointer) | Unset

  type Locals = map<string, Value>

  /** The member of a row that a name stands for: members are initialized in the order of their declaration. */
  function FieldOf(shape: Shape, row: Row, field: string): Result<Pointer> {
    if |shape.fields| > 0 && shape.fields[0] == field then Ok(row.first)
    else if |shape.fields| > 1 && shape.fields[1] == field then Ok(row.second)
    else Error
  }

  function Compare(a: Result<Value>, b: Result<Value>): Result<bool> {
    match (a, b)
    case (Ok(Chars(s)), Ok(Chars(t))) => Ok(s == t)
    case (Ok(Address(p)), Ok(Address(q))) => Ok(p == q)
    case _ => Error
  }

  /** To read past the table, or through a null pointer, is an error. */
  function Eval(e: Expr, image: Image, locals: Locals): Result<Value> {
    match e
    case Id(x) =>
      if x == "true" then Ok(Truth(true))
      else if x == "false" then Ok(Truth(false))
      else if x == "NULL" then Ok(Address(Null))
      else if x in locals then (if locals[x].Unset? then Error else Ok(locals[x]))
      else if x == image.shape.table then Ok(Cursor(0))
      else Error
    case Member(p, field) =>
      if p in locals && locals[p].Cursor? && locals[p].row < |image.rows| then
        (match FieldOf(image.shape, image.rows[locals[p].row], field)
         case Ok(pointer) => Ok(Address(pointer))
         case Error => Error)
      else Error
    case Target(address) =>
      (match Eval(address, image, locals)
       case Ok(Address(AddressOf(x))) => if x in image.env then Ok(Chars(image.env[x])) else Error
       case _ => Error)
    case Equal(left, right) =>
      (match Compare(Eval(left, image, locals), Eval(right, image, locals))
       case Ok(same) => Ok(Truth(same))
       case Error => Error)
    case Unequal(left, right) =>
      (match Compare(Eval(left, image, locals), Eval(right, image, locals))
       case Ok(same) => Ok(Truth(!same))
       case Error => Error)
  }

  datatype Outcome = Next(locals: Locals) | Returned(value: Value, locals: Locals) | Stuck

  /** One statement. Only strings are assigned to, and not the constant parameter. */
  function Exec(s: Stmt, image: Image, fixed: string, locals: Locals): Outcome
    decreases s, |image.rows| + 1
  {
    match s
    case Skip => Next(locals)
    case Then(first, rest) =>
      (match Exec(first, image, fixed, locals)
       case Next(after) => Exec(rest, image, fixed, after)
       case Returned(value, after) => Returned(value, after)
       case Stuck => Stuck)
    case Declare(tag, p) =>
      if tag == image.shape.tag && p !in locals then Next(locals[p := Unset]) else Stuck
    case Assign(x, e) =>
      (match Eval(e, image, locals)
       case Ok(Chars(text)) =>
         if x in locals && locals[x].Chars? && x != fixed then Next(locals[x := Chars(text)]) else Stuck
       case _ => Stuck)
    case Return(e) =>
      (match Eval(e, image, locals)
       case Ok(value) => Returned(value, locals)
       case Error => Stuck)
    case If(condition, body) =>
      (match Eval(condition, image, locals)
       case Ok(Truth(truth)) => if truth then Exec(body, image, fixed, locals) else Next(locals)
       case _ => Stuck)
    case For(p, start, _, _) =>
      (match Eval(start, image, locals)
       case Ok(Cursor(i)) =>
         if p in locals && (locals[p].Unset? || locals[p].Cursor?) && i <= |image.rows|
         then Loop(s, image, fixed, i, locals)
         else Stuck
       case _ => Stuck)
  }

  /** A loop whose pointer stands at row i; to step past the end of the table is an error. */
  function Loop(s: Stmt, image: Image, fixed: string, i: nat, locals: Locals): Outcome
    requires s.For? && i <= |image.rows|
    decreases s, |image.rows| - i
  {
    var here := locals[s.pointer := Cursor(i)];
    match Eval(s.condition, image, here)
    case Ok(Truth(truth)) =>
      if !truth then Next(here)
      else
        (match Exec(s.body, image, fixed, here)
         case Next(after) => if i < |image.rows| then Loop(s, image, fixed, i + 1, after) else Stuck
         case Returned(value, after) => Returned(value, after)
         case Stuck => Stuck)
    case _ => Stuck
  }

  datatype Called = Answered(answer: Answer) | Undefined

  /** A call of `find_embedded_file`, with the function that the program image has under that name. */
  function Call(image: Image, name: string, data: string): Called {
    var f := image.lookup;
    if f.name != "find_embedded_file" || f.fixed == f.open then Undefined
    else
      match Exec(f.body, image, f.fixed, map[f.fixed := Chars(name), f.open := Chars(data)])
      case Returned(Truth(found), locals) =>
        if f.open in locals && locals[f.open].Chars? then Answered(Answer(found, locals[f.open].text)) else Undefined
      case _ => Undefined
  }

  // ---------------------------------------------------------------- what a search finds

  /** The position of the first row whose first pointer is NULL. */
  function Sentinel(rows: seq<Row>): (k: nat)
    ensures k <= |rows|
    ensures forall j | 0 <= j < k :: rows[j].first.AddressOf?
    ensures k < |rows| ==> rows[k].first.Null?
  {
    if rows == [] || rows[0].first.Null? then 0 else 1 + Sentinel(rows[1..])
  }

  /** The table has a sentinel, and every row before it points at two strings. */
  predicate Walkable(image: Image) {
    var k := Sentinel(image.rows);
    && k < |image.rows|
    && forall j | 0 <= j < k ::
         && image.rows[j].first.variable in image.env
         && image.rows[j].second.AddressOf? && image.rows[j].second.variable in image.env
  }

  /** The strings that the rows before the sentinel point at. */
  function Listing(image: Image): (entries: seq<Entry>)
    requires Walkable(image)
    ensures |entries| == Sentinel(image.rows)
  {
    seq(Sentinel(image.rows), j requires 0 <= j < Sentinel(image.rows) =>
      Entry(image.env[image.rows[j].first.variable], image.env[image.rows[j].second.variable]))
  }

  /** Search from the front. */
  function Lookup(entries: seq<Entry>, name: string, data: string): (a: Answer)
    ensures a.found <==> exists i | 0 <= i < |entries| :: entries[i].name == name
    ensures a.found ==>
              exists i | 0 <= i < |entries| ::
                entries[i].name == name && entries[i].data == a.data && forall j | 0 <= j < i :: entries[j].name != name
    ensures !a.found ==> a.data == data
  {
    if entries == [] then Answer(false, data)
    else if entries[0].name == name then Answer(true, entries[0].data)
    else
      var a := Lookup(entries[1..], name, data);
      assert a.found ==> exists i | 0 <= i < |entries| ::
          entries[i].name == name && entries[i].data == a.data && forall j | 0 <= j < i :: entries[j].name != name by {
        if a.found {
          var i :| 0 <= i < |entries[1..]| && entries[1..][i].name == name && entries[1..][i].data == a.data
            && forall j | 0 <= j < i :: entries[1..][j].name != name;
          assert forall j | 0 <= j < i + 1 :: j > 0 ==> entries[j] == entries[1..][j - 1];
          assert entries[i + 1].name == name;
        }
      }
      a
  }

  /** Running the function of the image always ends, and answers as the search does. */
  ghost predicate Searches(image: Image) {
    && Walkable(image)
    && forall name, data :: Call(image, name, data) == Answered(Lookup(Listing(image), name, data))
  }

  /** `find_embedded_file`, as the program that includes the header calls it; `data0` is its string before the call. */
  method FindEmbeddedFile(image: Image, name: string, data0: string) returns (found: bool, data: string)
    requires Searches(image)
    ensures Answer(found, data) == Lookup(Listing(image), name, data0)
  {
    hide Exec, Lookup, Listing;
    var called := Call(image, name, data0);
    return called.answer.found, called.answer.data;
  }
}
