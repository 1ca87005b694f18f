/** Binding the variables of a generated header, and resolving its table. */
module Linking {
  import opened Formatting
  import opened Parser
  import opened Linker
  import opened Header
  import Reading
  import opened Scanning

  // ---------------------------------------------------------------- distinct variables

  lemma {:induction false} DecimalInjective(i: nat, j: nat)
    requires Decimal(i) == Decimal(j)
    ensures i == j
  {
    Reading.LexDecimal(true, [], i);
    Reading.LexDecimal(true, [], j);
  }

  lemma {:induction false} VariablesDiffer(i: nat, j: nat)
    ensures NameVariable(i) == NameVariable(j) ==> i == j
    ensures DataVariable(i) == DataVariable(j) ==> i == j
    ensures NameVariable(i) != DataVariable(j)
  {
    hide Decimal;
    var a, b := "translation_file_name_", "translation_file_data_";
    assert NameVariable(i)[17] == a[17] == 'n';
    assert DataVariable(j)[17] == b[17] == 'd';
    assert NameVariable(i)[22..] == Decimal(i) && NameVariable(j)[22..] == Decimal(j);
    assert DataVariable(i)[22..] == Decimal(i) && DataVariable(j)[22..] == Decimal(j);
    if Decimal(i) == Decimal(j) { DecimalInjective(i, j); }
  }

  // ---------------------------------------------------------------- binding

  /** A successful binding holds the value of every declaration. */
  lemma {:induction false} BindHolds(ds: seq<Decl>, k: nat)
    requires Bind(ds).Ok? && k < |ds|
    ensures Evaluate(ds[k].init).Ok?
    ensures ds[k].variable in Bind(ds).value && Bind(ds).value[ds[k].variable] == Evaluate(ds[k].init).value
    decreases |ds|
  {
    var n := |ds| - 1;
    if k < n { BindHolds(ds[..n], k); }
  }

  predicate IsVariable(x: string, n: nat) {
    exists i: nat | 1 <= i <= n :: x == NameVariable(i) || x == DataVariable(i)
  }

  lemma {:induction false} BindDecls(files: seq<File>)
    ensures Bind(DeclsOf(files)).Ok?
    ensures forall x | x in Bind(DeclsOf(files)).value :: IsVariable(x, |files|)
    decreases |files|
  {
    if files != [] {
      var n := |files|;
      var ds, file := DeclsOf(files[..n - 1]), files[n - 1];
      var d1, d2 := Decl(NameVariable(n), Literal(file.name)), DataOf(n, file.contents);
      BindDecls(files[..n - 1]);
      var bound := Bind(ds).value;
      assert NameVariable(n) !in bound && DataVariable(n) !in bound && NameVariable(n) != DataVariable(n) by {
        VariablesAreNew(bound, n);
      }
      hide NameVariable, DataVariable, DeclsOf, CString;
      BindTwo(ds, d1, d2);
      forall x | x in Bind(ds + [d1] + [d2]).value ensures IsVariable(x, n) {
        if x in Bind(ds).value {
          var i: nat :| 1 <= i <= n - 1 && (x == NameVariable(i) || x == DataVariable(i));
          assert i <= n;
        }
      }
      assert DeclsOf(files) == ds + [d1] + [d2] by { DeclsOfLast(files); }
    }
  }

  lemma {:induction false} DeclsOfLast(files: seq<File>)
    requires files != []
    ensures var n := |files|;
            DeclsOf(files) == DeclsOf(files[..n - 1]) + [Decl(NameVariable(n), Literal(files[n - 1].name))]
                              + [DataOf(n, files[n - 1].contents)]
  {
  }

  lemma {:induction false} VariablesAreNew(env: Env, n: nat)
    requires n > 0 && forall x | x in env :: IsVariable(x, n - 1)
    ensures NameVariable(n) !in env && DataVariable(n) !in env && NameVariable(n) != DataVariable(n)
  {
    hide NameVariable, DataVariable;
    forall x | x in env ensures x != NameVariable(n) && x != DataVariable(n) {
      var i: nat :| 1 <= i <= n - 1 && (x == NameVariable(i) || x == DataVariable(i));
      VariablesDiffer(i, n);
      VariablesDiffer(n, i);
    }
    VariablesDiffer(n, n);
  }

  lemma {:induction false} BindTwo(ds: seq<Decl>, d1: Decl, d2: Decl)
    requires Bind(ds).Ok? && Evaluate(d1.init).Ok? && Evaluate(d2.init).Ok?
    requires d1.variable !in Bind(ds).value && d2.variable !in Bind(ds).value && d1.variable != d2.variable
    ensures Bind(ds + [d1] + [d2]) ==
            Ok(Bind(ds).value[d1.variable := Evaluate(d1.init).value][d2.variable := Evaluate(d2.init).value])
  {
    var one := ds + [d1];
    assert one[..|ds|] == ds;
    assert Bind(one) == Ok(Bind(ds).value[d1.variable := Evaluate(d1.init).value]);
    assert (one + [d2])[..|one|] == one;
  }
}
