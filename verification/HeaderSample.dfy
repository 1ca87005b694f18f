/** The header of one small file, spelled out as the generator prints it. */
module HeaderSample {
  import opened Formatting
  import opened Header
  import opened Generator

  const TWO_BYTES: Bytes := [0x00 as char, 0xab as char]

  const GUARD_LINES := "#ifndef TRANSLATION_FILES_H\n" + "#define TRANSLATION_FILES_H\n" + "\n" +
                       "#include <string>\n" + "\n"

  const NAME_LINE := "static const std::string " + "translation_file_name_1 = " + "\"a.qm\";\n"

  const DATA_LINES := "static const std::string " + "translation_file_data_1 = " + "std::string(" +
                      "\n  \"\\x00\\xab\"" + ",\n  2);\n" + "\n"

  const STRUCT_LINES := "static const " + "struct " +
                        (("embedded_file {\n" + "  const std::string *name;\n") +
                         ("  const std::string *data;\n" + "} embedded_files[] = {\n"))

  const ROW_LINE := "  {&" + "translation_file_name_1, &" + "translation_file_data_1},\n"

  const END_LINES := "  {" + "NULL, " + "NULL}\n" + "};\n\n"

  const CODE_LINES :=
    ("static bool find_embedded_file(" + "const std::string &name, " + "std::string &data) {\n") +
    ("  const struct embedded_file *p;\n" +
     "  for (p = embedded_files; " + "p->name != NULL; p++) {\n") +
    ("    if (*p->name == name) {\n" +
     "      data = *p->data;\n" +
     "      return true;\n") +
    ("    }\n" + "  }\n" + "  return false;\n" + "}\n") + "\n"

  const LAST_LINE := "#endif /* " + "TRANSLATION_FILES_H" + " */" + "\n"

  lemma {:induction false} GuardLines()
    ensures PREAMBLE == GUARD_LINES
  {
    assert "#ifndef " + GUARD + "\n" == "#ifndef TRANSLATION_FILES_H\n";
    assert "#define " + GUARD + "\n" == "#define TRANSLATION_FILES_H\n";
    assert "#include <string>" + "\n" == "#include <string>\n";
  }

  lemma {:induction false} NameLine()
    ensures NameDecl(1, "a.qm") == NAME_LINE
  {
    assert Decimal(1) == "1";
    assert STRING_VARIABLE == "static const std::string ";
    assert NameVariable(1) + " = " == "translation_file_name_1 = ";
    assert "\"" + "a.qm" + "\"" + ";\n" == "\"a.qm\";\n";
    hide STRING_VARIABLE, NameVariable;
  }

  lemma {:induction false} DataLines()
    ensures DataDecl(1, TWO_BYTES) == DATA_LINES
  {
    assert Decimal(1) == "1" && Decimal(2) == "2";
    assert STRING_VARIABLE == "static const std::string ";
    assert DataVariable(1) + " = " == "translation_file_data_1 = ";
    Block();
    hide STRING_VARIABLE, DataVariable, DataBlock;
    assert ",\n  " + ("2" + ")") + ";\n\n" == ",\n  2);\n" + "\n";
  }

  lemma {:induction false} Block()
    ensures DataBlock(TWO_BYTES) == "\n  \"\\x00\\xab\""
  {
    var one: Bytes := [0x00 as char];
    assert HexByte(0x00 as char) == "00" && HexByte(0xab as char) == "ab";
    assert TWO_BYTES == one + [0xab as char] && "" + one == one;
    EscapesAppend("", 0x00 as char);
    EscapesAppend(one, 0xab as char);
    assert Escapes(TWO_BYTES) == "\\x00\\xab";
    assert Chunks(TWO_BYTES) == [TWO_BYTES];
    hide Escapes, Chunks;
    assert [TWO_BYTES][..0] == [];
    assert Lines([TWO_BYTES]) == "" + ("\n  \"" + "\\x00\\xab" + "\"");
  }

  lemma {:induction false} RowLine()
    ensures TableRow(1) == ROW_LINE
  {
    assert Decimal(1) == "1";
    assert NameVariable(1) + ", &" == "translation_file_name_1, &";
    assert DataVariable(1) + "},\n" == "translation_file_data_1},\n";
    hide NameVariable, DataVariable;
  }

  lemma {:induction false} FixedLines()
    ensures TABLE_HEAD == STRUCT_LINES && TABLE_END == END_LINES
    ensures CODE + "\n" == CODE_LINES && ENDIF + "\n" == LAST_LINE
  {
  }

  /** What the generator writes for one file of two bytes. */
  lemma {:induction false} HeaderOfOneFile()
    ensures HeaderText([File("a.qm", TWO_BYTES)]) ==
            GUARD_LINES + NAME_LINE + DATA_LINES + STRUCT_LINES + ROW_LINE + END_LINES + CODE_LINES + LAST_LINE
  {
    var file := File("a.qm", TWO_BYTES);
    GuardLines();
    NameLine();
    DataLines();
    RowLine();
    FixedLines();
    hide PREAMBLE, NameDecl, DataDecl, TABLE_HEAD, TableRow, TABLE_END, CODE, ENDIF;
    hide GUARD_LINES, NAME_LINE, DATA_LINES, STRUCT_LINES, ROW_LINE, END_LINES, CODE_LINES, LAST_LINE;
    assert [file][..0] == [];
    assert Declarations([file]) == NAME_LINE + DATA_LINES;
    assert TableRows(1) == ROW_LINE;
  }
}
