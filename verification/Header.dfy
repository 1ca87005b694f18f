/**
 The text of the generated header as a function of the embedded files, stated by its
 layout: contents are cut into lines of sixteen bytes, each line its own string literal.
 */
module Header {
  import opened Formatting

  /** One command-line argument together with the bytes found under that name. */
  datatype File = File(name: string, contents: Bytes)

  const GUARD := "TRANSLATION_FILES_H"

  const PREAMBLE := "#ifndef " + GUARD + "\n" + ("#define " + GUARD + "\n") + "\n" + ("#include <string>" + "\n") + "\n"

  const STRING_VARIABLE := "static const " + "std::string "

  function NameVariable(i: nat): string {
    "translation_file_name_" + Decimal(i)
  }

  function DataVariable(i: nat): string {
    "translation_file_data_" + Decimal(i)
  }

  function Define(variable: string): string {
    STRING_VARIABLE + (variable + " = ")
  }

  function NameDecl(i: nat, name: string): string {
    Define(NameVariable(i)) + ("\"" + name + "\"" + ";\n")
  }

  // ---------------------------------------------------------------- the data block

  const LINE := 16

  /** The contents in pieces of `LINE` bytes, the last piece possibly shorter. */
  function Chunks(contents: Bytes): (cs: seq<Bytes>)
  {
    if |contents| <= LINE then (if contents == "" then [] else [contents])
    else [contents[..LINE]] + Chunks(contents[LINE..])
  }

  function Escapes(chunk: Bytes): string {
    if chunk == "" then "" else Escapes(chunk[..|chunk| - 1]) + "\\x" + HexByte(chunk[|chunk| - 1])
  }

  /** One literal on a line of its own. */
  function Quoted(chunk: Bytes): string {
    "\n  \"" + Escapes(chunk) + "\""
  }

  function Lines(chunks: seq<Bytes>): string {
    if chunks == [] then "" else Lines(chunks[..|chunks| - 1]) + Quoted(chunks[|chunks| - 1])
  }

  /**
   Everything from the opening parenthesis of the constructor call to the comma. For an
   empty file no literal was opened, and yet one quote is printed.
   */
  function DataBlock(contents: Bytes): string {
    if contents == "" then "\"" else Lines(Chunks(contents))
  }

  function DataDecl(i: nat, contents: Bytes): string {
    Define(DataVariable(i)) + "std::string(" + DataBlock(contents) + ",\n  " + (Decimal(|contents|) + ")") + ";\n\n"
  }

  // ---------------------------------------------------------------- the whole header

  /** File number k, counted from 1, is declared under the number k. */
  function Declarations(files: seq<File>): string {
    if files == [] then ""
    else
      var n := |files|;
      Declarations(files[..n - 1]) + NameDecl(n, files[n - 1].name) + DataDecl(n, files[n - 1].contents)
  }

  const TABLE_BODY :=
    ("embedded_file {\n" + "  const std::string *name;\n") +
    ("  const std::string *data;\n" + "} embedded_files[] = {\n")

  const TABLE_HEAD := "static const " + "struct " + TABLE_BODY

  function TableRow(i: nat): string {
    "  {&" + (NameVariable(i) + ", &") + (DataVariable(i) + "},\n")
  }

  function TableRows(n: nat): string {
    if n == 0 then "" else TableRows(n - 1) + TableRow(n)
  }

  const TABLE_END := "  {" + "NULL, " + "NULL}\n" + "};\n\n"

  const CODE :=
    ("static bool find_embedded_file(" + "const std::string &name, " + "std::string &data) {\n") +
    ("  const struct embedded_file *p;\n" +
     "  for (p = embedded_files; " + "p->name != NULL; p++) {\n") +
    ("    if (*p->name == name) {\n" +
     "      data = *p->data;\n" +
     "      return true;\n") +
    ("    }\n" + "  }\n" + "  return false;\n" + "}\n")

  const ENDIF := "#endif /* " + GUARD + " */"

  const TAIL := TABLE_END + (CODE + "\n") + (ENDIF + "\n")

  function HeaderText(files: seq<File>): string {
    PREAMBLE + Declarations(files) + TABLE_HEAD + TableRows(|files|) + TAIL
  }
}
