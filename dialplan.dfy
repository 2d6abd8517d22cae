/**
 * Lines of an Asterisk dialplan, `exten => <ext>,<priority>,<app>`, as every
 * renderer of the PBX writes them: the first application of an extension at
 * priority 1 and each later one at priority `n`.
 */
module Dialplan {
  import opened Text
  import opened Sections

  /** The header of the context every extension dials from. */
  const InternalHeader := "[internal]"

  /** The header of the context calls from the trunks arrive in. */
  const FromTrunkHeader := "[from-trunk]"

  function Exten(ext: string, priority: string, app: string): string
  {
    "exten => " + ext + "," + priority + "," + app + "\n"
  }

  /** A line made of plain parts opens no section. */
  lemma ExtenPlain(ext: string, priority: string, app: string)
    requires Plain(ext) && Plain(priority) && Plain(app)
    ensures Plain(Exten(ext, priority, app))
  {
    assert Plain("exten => ") && Plain(",") && Plain("\n");
  }

  /** One line of a configuration text the services write: a line break, two spaces, the text. */
  function Line(text: string): string
  {
    "\n  " + text
  }

  /** Lines written one after the other, each as `Line` writes it. */
  function Indented(lines: seq<string>): string
  {
    ConcatMap(lines, Line)
  }

  /** An `exten` line as one of the indented lines of a fixed text. */
  function ExtenLine(ext: string, priority: string, app: string): string
  {
    Line("exten => " + ext + "," + priority + "," + app)
  }

  /** An indented line of plain text opens no section. */
  lemma LinePlain(text: string)
    requires Plain(text)
    ensures Plain(Line(text))
  {
    assert Plain("\n  ");
  }

  lemma ExtenLinePlain(ext: string, priority: string, app: string)
    requires Plain(ext) && Plain(priority) && Plain(app)
    ensures Plain(ExtenLine(ext, priority, app))
  {
    assert Plain("exten => ") && Plain(",");
    LinePlain("exten => " + ext + "," + priority + "," + app);
  }

  /** Plain lines give a plain text. */
  lemma IndentedPlain(lines: seq<string>)
    requires AllPlain(lines)
    ensures Plain(Indented(lines))
  {
    forall i | 0 <= i < |lines| ensures Plain(Line(lines[i])) {
      assert Plain(lines[i]);
    }
    ConcatMapPlain(lines, Line);
  }

  /** Every string of the list is free of `[`. */
  predicate AllPlain(xs: seq<string>)
  {
    forall i :: 0 <= i < |xs| ==> Plain(xs[i])
  }

  /** The applications after the first, each at priority `n`. */
  function LaterLines(ext: string, apps: seq<string>): (ls: seq<string>)
    ensures |ls| == |apps|
    ensures forall i :: 0 <= i < |apps| ==> ls[i] == Exten(ext, "n", apps[i])
  {
    if apps == [] then [] else [Exten(ext, "n", apps[0])] + LaterLines(ext, apps[1..])
  }

  /** The lines of one extension running `apps` in order. */
  function ExtenLines(ext: string, apps: seq<string>): (ls: seq<string>)
    ensures |ls| == |apps|
    ensures forall i :: 0 <= i < |apps| ==> ls[i] == Exten(ext, if i == 0 then "1" else "n", apps[i])
  {
    if apps == [] then [] else [Exten(ext, "1", apps[0])] + LaterLines(ext, apps[1..])
  }

  /** A line of extension `ext` starts with its `exten => <ext>,`. */
  lemma ExtenStarts(ext: string, priority: string, app: string)
    ensures StartsWith(Exten(ext, priority, app), "exten => " + ext + ",")
  {
    var p := "exten => " + ext + ",";
    var rest := priority + "," + app + "\n";
    assert Exten(ext, priority, app) == p + rest;
    assert (p + rest)[..|p|] == p;
  }

  /** Every line belongs to extension `ext`. */
  lemma ExtenLinesStart(ext: string, apps: seq<string>)
    ensures forall i :: 0 <= i < |apps| ==> StartsWith(ExtenLines(ext, apps)[i], "exten => " + ext + ",")
  {
    forall i | 0 <= i < |apps| ensures StartsWith(ExtenLines(ext, apps)[i], "exten => " + ext + ",") {
      ExtenStarts(ext, if i == 0 then "1" else "n", apps[i]);
    }
  }

  /** Lines made of plain parts open no section. */
  lemma ExtenLinesPlain(ext: string, apps: seq<string>)
    requires Plain(ext) && AllPlain(apps)
    ensures Plain(Concat(ExtenLines(ext, apps)))
  {
    var ls := ExtenLines(ext, apps);
    forall i | 0 <= i < |ls| ensures Plain(ls[i]) {
      assert Plain(apps[i]);
    }
    ConcatPlain(ls);
  }
}
