/** A directory as reading it gives it: entries in no particular order. */
module DirectoryTree {
  import opened Options
  import opened Text

  /** `Special` is neither a file nor a directory. */
  datatype Node = File(content: string) | Dir(entries: seq<Entry>) | Special
  datatype Entry = Entry(name: string, node: Node)

  const SEP := '/'
  const NUL := '\0'

  function Find(entries: seq<Entry>, name: string): (found: Option<Node>)
    ensures found.Some? <==> exists i :: 0 <= i < |entries| && entries[i].name == name
    ensures found.Some? ==> exists i :: 0 <= i < |entries| && entries[i].name == name && entries[i].node == found.value
  {
    if entries == [] then None
    else if entries[0].name == name then
      assert entries[0].node == entries[0].node;
      Some(entries[0].node)
    else
      var rest := Find(entries[1..], name);
      assert forall i :: 0 <= i < |entries[1..]| ==> entries[1..][i] == entries[i + 1];
      rest
  }

  /** A name cannot hold the separator or a zero byte, and no directory has two entries of one name. */
  ghost predicate Valid(entries: seq<Entry>)
    decreases entries
  {
    && (forall i, j :: 0 <= i < j < |entries| ==> entries[i].name != entries[j].name)
    && (forall i :: 0 <= i < |entries| ==> Free(entries[i].name, SEP) && Free(entries[i].name, NUL))
    && (forall i :: 0 <= i < |entries| && entries[i].node.Dir? ==> Valid(entries[i].node.entries))
  }

  lemma {:induction false} FindAt(entries: seq<Entry>, i: nat)
    requires i < |entries| && forall j, k :: 0 <= j < k < |entries| ==> entries[j].name != entries[k].name
    ensures Find(entries, entries[i].name) == Some(entries[i].node)
  {
    if i > 0 { FindAt(entries[1..], i - 1); }
  }

  /** What stands at a path, given as its names. */
  function At(entries: seq<Entry>, path: seq<string>): Option<Node> {
    if path == [] then None
    else
      var found := Find(entries, path[0]);
      if |path| == 1 then found
      else if found.Some? && found.value.Dir? then At(found.value.entries, path[1..])
      else None
  }

  lemma {:induction false} PathsAreFree(entries: seq<Entry>, path: seq<string>)
    requires Valid(entries) && At(entries, path).Some?
    ensures path != [] && AllFree(path, SEP) && AllFree(path, NUL)
    decreases |path|
  {
    var i :| 0 <= i < |entries| && entries[i].name == path[0];
    FindAt(entries, i);
    if |path| > 1 {
      PathsAreFree(entries[i].node.entries, path[1..]);
      assert forall k :: 1 <= k < |path| ==> path[k] == path[1..][k - 1];
    }
  }
}
