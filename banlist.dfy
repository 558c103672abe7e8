/** The text `shutdown` and `restart` write to the ban-list file: one line per
    ban-list entry, each entry's text followed by a newline. */
module BanList {
  import opened PyStr

  /** The list comprehension `[f"{item}\n" for item in banlist]`, with each
      entry given as its text. */
  function BanLines(banlist: seq<string>): seq<string>
  {
    seq(|banlist|, i requires 0 <= i < |banlist| => banlist[i] + "\n")
  }

  /** What `f.writelines(lines)` writes: the lines one after another, with
      nothing added between them. */
  function WriteLines(lines: seq<string>): string
  {
    if lines == [] then "" else lines[0] + WriteLines(lines[1..])
  }

  /** The content of the ban-list file; both commands build it the same way. */
  function FileContent(banlist: seq<string>): string
  {
    WriteLines(BanLines(banlist))
  }

  /** One entry, newline-terminated, per ban-list entry, in order; an empty
      ban list gives an empty file. */
  lemma {:induction false} FileContentLines(banlist: seq<string>)
    ensures banlist == [] ==> FileContent(banlist) == ""
    ensures banlist != [] ==>
              FileContent(banlist) == banlist[0] + "\n" + FileContent(banlist[1..])
  {
    if banlist != [] {
      assert BanLines(banlist)[1..] == BanLines(banlist[1..]);
    }
  }

  /** The content of two ban lists one after the other is the content of the
      first followed by the content of the second. */
  lemma {:induction false} FileContentAppend(a: seq<string>, b: seq<string>)
    ensures FileContent(a + b) == FileContent(a) + FileContent(b)
    decreases |a|
  {
    FileContentLines(a);
    FileContentLines(a + b);
    if a == [] {
      assert a + b == b;
    } else {
      assert (a + b)[0] == a[0];
      assert (a + b)[1..] == a[1..] + b;
      FileContentAppend(a[1..], b);
    }
  }

  /** The file is the entries joined by newlines, with one more newline at the
      end (an empty last piece). */
  lemma {:induction false} FileContentIsJoin(banlist: seq<string>)
    ensures FileContent(banlist) == Join(banlist + [""], '\n')
    decreases |banlist|
  {
    FileContentLines(banlist);
    if banlist != [] {
      FileContentIsJoin(banlist[1..]);
      assert (banlist + [""])[1..] == banlist[1..] + [""];
      assert (banlist + [""])[0] == banlist[0];
    }
  }

  /** When no entry holds a newline, the file has exactly one newline per
      entry, and splitting it on newlines gives the entries back in order,
      followed by the empty text after the last newline. */
  lemma FileContentReadBack(banlist: seq<string>)
    requires forall i :: 0 <= i < |banlist| ==> '\n' !in banlist[i]
    ensures Count(FileContent(banlist), '\n') == |banlist|
    ensures Split(FileContent(banlist), '\n') == banlist + [""]
    ensures Split(FileContent(banlist), '\n')[..|banlist|] == banlist
  {
    var pieces := banlist + [""];
    assert forall i :: 0 <= i < |pieces| ==> '\n' !in pieces[i] by {
      forall i | 0 <= i < |pieces| ensures '\n' !in pieces[i] {
        if i < |banlist| {
          assert pieces[i] == banlist[i];
        }
      }
    }
    FileContentIsJoin(banlist);
    CountJoin(pieces, '\n');
    SplitUnique(FileContent(banlist), pieces, '\n');
    assert pieces[..|banlist|] == banlist;
  }
}
