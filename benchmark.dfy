/** The benchmark script around the captioning model: the output file's name, the list
    of image paths and ground-truth captions read from each JSON file, and the loop that
    writes one result line per existing image. The model, the image library and the
    file system are parameters. */
module Benchmark {

  import opened Outcomes
  import opened Seqs
  import opened Text
  import opened Json
  import opened Captions

  /** `os.path.basename(image_json).replace(".json", "_output_full.tsv")`: the results
      go to the working directory. */
  function OutputFileName(jsonPath: string): (r: string)
    ensures '/' !in r
  {
    var name := Basename(jsonPath);
    ReplaceKeepsOut(name, ".json", "_output_full.tsv", '/');
    ReplaceAll(name, ".json", "_output_full.tsv")
  }

  /** A JSON file `<dir>/<stem>.json` whose stem does not itself contain `.json` gives
      `<stem>_output_full.tsv`. */
  lemma OutputFileNameOfJson(dir: string, stem: string)
    requires '/' !in stem && !Occurs(stem, ".json")
    ensures OutputFileName(dir + "/" + stem + ".json") == stem + "_output_full.tsv"
  {
    assert ".json"[0] !in ".json"[1..] && '/' !in ".json" by {
      assert ".json"[1..] == "json";
    }
    ReplaceInBasename(dir, stem, ".json", "_output_full.tsv");
    AppendAssoc(dir + "/", stem, ".json");
  }

  lemma ReplaceInBasename(dir: string, stem: string, pat: string, rep: string)
    requires pat != [] && pat[0] !in pat[1..] && '/' !in stem && '/' !in pat && !Occurs(stem, pat)
    ensures ReplaceAll(Basename(dir + "/" + (stem + pat)), pat, rep) == stem + rep
  {
    BasenameOfName(dir, stem + pat);
    ReplaceTrailing(stem, pat, rep);
  }

  /** The text an f-string puts in place of a JSON value: a string as it is, anything
      else by Python's `str`, given as `show`. */
  function Display(v: Value, show: Value -> string): string {
    if v.Str? then v.s else show(v)
  }

  /** `(f"{prefix}/{entry['image']}", entry["caption"])` for one entry. */
  function EntryPair(prefix: string, entry: Value, show: Value -> string): (r: Result<(string, Value)>)
    ensures r.Ok? <==> entry.Obj? && "image" in entry.fields && "caption" in entry.fields
    ensures entry.Obj? && "image" !in entry.fields ==> r == Fail(KeyError("image"))
    ensures entry.Obj? && "image" in entry.fields && "caption" !in entry.fields ==> r == Fail(KeyError("caption"))
    ensures !entry.Obj? ==> r == Fail(TypeError)
  {
    if !entry.Obj? then Fail(TypeError)
    else if "image" !in entry.fields then Fail(KeyError("image"))
    else if "caption" !in entry.fields then Fail(KeyError("caption"))
    else Ok((prefix + "/" + Display(entry.fields["image"], show), entry.fields["caption"]))
  }

  /** The list comprehension of `main` over one JSON file's entries: the pairs in entry
      order, or the error of the first entry that lacks a key. */
  function ImageEntries(prefix: string, data: seq<Value>, show: Value -> string): (r: Result<seq<(string, Value)>>)
    ensures r.Ok? <==> forall i :: 0 <= i < |data| ==> EntryPair(prefix, data[i], show).Ok?
    ensures r.Ok? ==> |r.value| == |data|
    ensures r.Ok? ==> forall i :: 0 <= i < |data| ==> r.value[i] == EntryPair(prefix, data[i], show).value
    ensures r.Fail? ==> exists i :: (0 <= i < |data| && EntryPair(prefix, data[i], show) == Fail(r.error)
      && forall j :: 0 <= j < i ==> EntryPair(prefix, data[j], show).Ok?)
  {
    if data == [] then Ok([])
    else
      var n := |data| - 1;
      assert forall j :: 0 <= j < n ==> data[..n][j] == data[j];
      match ImageEntries(prefix, data[..n], show)
      case Fail(e) => Fail(e)
      case Ok(pairs) =>
        match EntryPair(prefix, data[n], show)
        case Fail(e) => Fail(e)
        case Ok(pair) => Ok(pairs + [pair])
  }

  /** Each image path is the prefix, a slash and the entry's image, and it is paired
      with the entry's caption unchanged. */
  lemma ImagePathsArePrefixed(prefix: string, data: seq<Value>, show: Value -> string, i: nat)
    requires ImageEntries(prefix, data, show).Ok? && i < |data|
    ensures data[i].Obj? && "image" in data[i].fields && "caption" in data[i].fields
    ensures var pair := ImageEntries(prefix, data, show).value[i];
      pair.0[..|prefix| + 1] == prefix + "/"
      && pair.0[|prefix| + 1..] == Display(data[i].fields["image"], show)
      && pair.1 == data[i].fields["caption"]
  {
    assert EntryPair(prefix, data[i], show).Ok?;
  }

  /** One line of the results file: the image path, its ground truth, the first cleaned
      caption and all cleaned captions. */
  datatype ResultLine = ResultLine(path: string, truth: Value, top: string, all: seq<string>)

  /** The lines written for `entries`, defined entry by entry: an entry whose image does
      not exist is skipped. */
  function Lines(entries: seq<(string, Value)>, exists_: string -> bool,
                 generate: string -> seq<string>): seq<ResultLine>
  {
    if entries == [] then []
    else
      var n := |entries| - 1;
      var path := entries[n].0;
      var all := CleanCaptions(generate(path));
      Lines(entries[..n], exists_, generate)
        + (if exists_(path) then [ResultLine(path, entries[n].1, all[0], all)] else [])
  }

  /** The writing loop of `main`; `exists_` is `os.path.exists` and `generate` the model's
      raw captions for an image. */
  method WriteResults(entries: seq<(string, Value)>, exists_: string -> bool,
                      generate: string -> seq<string>) returns (written: seq<ResultLine>)
    ensures written == Lines(entries, exists_, generate)
  {
    written := [];
    for i := 0 to |entries|
      invariant written == Lines(entries[..i], exists_, generate)
    {
      assert entries[..i + 1][..i] == entries[..i];
      var (imagePath, caption) := entries[i];
      if !exists_(imagePath) {
        continue;
      }
      var allOutputs := CleanCaptions(generate(imagePath));
      written := written + [ResultLine(imagePath, caption, allOutputs[0], allOutputs)];
    }
    assert entries[..|entries|] == entries;
  }

  /** Every written line's top caption is the first of its captions, all of them clean:
      the model always yields at least one caption after cleaning, so `all_outputs[0]`
      never fails. */
  lemma {:induction false} LinesAreClean(entries: seq<(string, Value)>, exists_: string -> bool,
                                         generate: string -> seq<string>)
    ensures forall l :: l in Lines(entries, exists_, generate) ==>
      l.all != [] && l.top == l.all[0] && (forall s :: s in l.all ==> Clean(s))
    ensures |Lines(entries, exists_, generate)| <= |entries|
    decreases |entries|
  {
    if entries != [] {
      LinesAreClean(entries[..|entries| - 1], exists_, generate);
    }
  }

  /** Every line belongs to an entry whose image exists. */
  lemma {:induction false} LinesOfExisting(entries: seq<(string, Value)>, exists_: string -> bool,
                                           generate: string -> seq<string>)
    ensures forall l :: l in Lines(entries, exists_, generate) ==> exists_(l.path) && (l.path, l.truth) in entries
    decreases |entries|
  {
    if entries != [] {
      var n := |entries| - 1;
      var prev := Lines(entries[..n], exists_, generate);
      LinesOfExisting(entries[..n], exists_, generate);
      assert forall e :: e in entries[..n] ==> e in entries by {
        assert entries == entries[..n] + [entries[n]];
      }
      assert (entries[n].0, entries[n].1) == entries[n];
      forall l | l in Lines(entries, exists_, generate)
        ensures exists_(l.path) && (l.path, l.truth) in entries
      {
        if l !in prev {
          assert l.path == entries[n].0 && l.truth == entries[n].1;
        }
      }
    }
  }

  /** The test `os.path.exists(image_path)` on an entry. */
  function ImageExists(exists_: string -> bool): ((string, Value)) -> bool {
    (e: (string, Value)) => exists_(e.0)
  }

  /** The lines are those of the entries whose image exists, one each, in entry order. */
  lemma {:induction false} LinesFollowExisting(entries: seq<(string, Value)>, exists_: string -> bool,
                                               generate: string -> seq<string>)
    ensures var kept := Filter(ImageExists(exists_), entries);
      var ls := Lines(entries, exists_, generate);
      |ls| == |kept| && forall k :: 0 <= k < |ls| ==> (ls[k].path, ls[k].truth) == kept[k]
    decreases |entries|
  {
    if entries != [] {
      LinesFollowExisting(entries[..|entries| - 1], exists_, generate);
    }
  }

  /** When every image exists, every entry gets a line. */
  lemma {:induction false} AllExistingAllWritten(entries: seq<(string, Value)>, exists_: string -> bool,
                                                 generate: string -> seq<string>)
    requires forall i :: 0 <= i < |entries| ==> exists_(entries[i].0)
    ensures |Lines(entries, exists_, generate)| == |entries|
    decreases |entries|
  {
    if entries != [] {
      AllExistingAllWritten(entries[..|entries| - 1], exists_, generate);
    }
  }
}
