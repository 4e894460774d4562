/**
 * Choosing the file to read: among the folder's files whose names end with
 * "{file_name}.{file_type}", the one whose timestamp prefix (the text before
 * the first "_") is the greatest.
 */
module Reader {
  import opened Common

  predicate EndsWith(s: string, suffix: string) {
    |suffix| <= |s| && s[|s| - |suffix|..] == suffix
  }

  /** The end a file name must have: "{file_name}.{file_type}". */
  function FileSuffix(fileName: string, fileType: string): string {
    fileName + "." + fileType
  }

  /** The listed names that end with `suffix`, in listing order. */
  function Candidates(listing: seq<string>, suffix: string): (c: seq<string>)
    ensures forall f :: f in c <==> f in listing && EndsWith(f, suffix)
    ensures |c| <= |listing|
  {
    if listing == [] then []
    else
      var n := |listing| - 1;
      var c := Candidates(listing[..n], suffix);
      assert listing == listing[..n] + [listing[n]];
      if EndsWith(listing[n], suffix) then c + [listing[n]] else c
  }

  /**
   * The folder listing (os.listdir, given here as `listing`) filtered by the
   * file suffix, appending one name at a time.
   */
  method GetFilesToSort(listing: seq<string>, fileName: string, fileType: string)
    returns (filesToBeSorted: seq<string>)
    ensures filesToBeSorted == Candidates(listing, FileSuffix(fileName, fileType))
    ensures forall f :: f in filesToBeSorted <==> f in listing && EndsWith(f, FileSuffix(fileName, fileType))
  {
    filesToBeSorted := [];
    var fileSuffix := FileSuffix(fileName, fileType);
    for i := 0 to |listing|
      invariant filesToBeSorted == Candidates(listing[..i], fileSuffix)
    {
      assert listing[..i + 1][..i] == listing[..i];
      if EndsWith(listing[i], fileSuffix) {
        filesToBeSorted := filesToBeSorted + [listing[i]];
      }
    }
    assert listing[..|listing|] == listing;
  }

  /** Matching is a plain suffix test: a longer name such as "x_presales.parquet" matches "sales". */
  lemma SuffixHasNoSeparatorCheck()
    ensures EndsWith("x_presales.parquet", FileSuffix("sales", "parquet"))
  {
    assert "x_presales.parquet"[|"x_presales.parquet"| - |"sales.parquet"|..] == "sales.parquet";
  }

  // ---------------------------------------------------------------------------
  // The sort key and Python's string order

  /** x.split("_")[0]: the text before the first "_", or the whole name. */
  function SortKey(name: string): (k: string)
    ensures |k| <= |name| && k == name[..|k|]
    ensures '_' !in k
    ensures |k| < |name| ==> name[|k|] == '_'
  {
    if name == [] || name[0] == '_' then []
    else [name[0]] + SortKey(name[1..])
  }

  /** Python's a <= b on strings: lexicographic by character code. */
  predicate LexLe(a: string, b: string) {
    if a == [] then true
    else if b == [] then false
    else if a[0] != b[0] then a[0] < b[0]
    else LexLe(a[1..], b[1..])
  }

  lemma {:induction false} LexLeTotal(a: string, b: string)
    ensures LexLe(a, b) || LexLe(b, a)
  {
    if a != [] && b != [] && a[0] == b[0] {
      LexLeTotal(a[1..], b[1..]);
    }
  }

  lemma {:induction false} LexLeAntisymmetric(a: string, b: string)
    requires LexLe(a, b) && LexLe(b, a)
    ensures a == b
  {
    if a != [] && b != [] {
      LexLeAntisymmetric(a[1..], b[1..]);
      assert a == [a[0]] + a[1..] && b == [b[0]] + b[1..];
    }
  }

  lemma {:induction false} LexLeTransitive(a: string, b: string, c: string)
    requires LexLe(a, b) && LexLe(b, c)
    ensures LexLe(a, c)
  {
    if a != [] && b != [] && c != [] && a[0] == b[0] && b[0] == c[0] {
      LexLeTransitive(a[1..], b[1..], c[1..]);
    }
  }

  // ---------------------------------------------------------------------------
  // sorted(files, reverse=True, key=...)[0]

  /**
   * The index of the element that comes first in the stable descending sort:
   * its key is the greatest, and no earlier element has that key.
   */
  function LatestIndex(files: seq<string>): (i: nat)
    requires files != []
    ensures i < |files|
    ensures forall j :: 0 <= j < |files| ==> LexLe(SortKey(files[j]), SortKey(files[i]))
    ensures forall j :: 0 <= j < i ==> SortKey(files[j]) != SortKey(files[i])
  {
    if |files| == 1 then
      LexLeTotal(SortKey(files[0]), SortKey(files[0]));
      0
    else
      var n := |files| - 1;
      var m := LatestIndex(files[..n]);
      assert forall j :: 0 <= j < n ==> files[..n][j] == files[j];
      var best, last := SortKey(files[m]), SortKey(files[n]);
      if LexLe(last, best) then m
      else
        LexLeTotal(last, best);
        assert forall j :: 0 <= j < |files| ==> LexLe(SortKey(files[j]), last) by {
          forall j | 0 <= j < |files| ensures LexLe(SortKey(files[j]), last) {
            if j < n {
              LexLeTransitive(SortKey(files[j]), best, last);
            } else {
              LexLeTotal(last, last);
            }
          }
        }
        assert forall j :: 0 <= j < n ==> SortKey(files[j]) != last by {
          forall j | 0 <= j < n ensures SortKey(files[j]) != last {
          }
        }
        n
  }

  /** The exception read_data_from_file lets escape: sorted_files[0] of an empty list. */
  datatype ReadError = NoFileToRead

  /**
   * The path read_data_from_file reads: "{data_root}/{folder_name}/{latest}",
   * where `dataRoot` stands for DATA_ROOT_FOLDER.
   */
  function InputFilePath(dataRoot: string, folderName: string, listing: seq<string>,
                         fileName: string, fileType: string): (r: Result<string, ReadError>)
    ensures r.Failure? <==> forall f :: f in listing ==> !EndsWith(f, FileSuffix(fileName, fileType))
    ensures r.Success? ==>
      exists chosen :: r.value == dataRoot + "/" + folderName + "/" + chosen
        && chosen in listing && EndsWith(chosen, FileSuffix(fileName, fileType))
        && forall f :: f in listing && EndsWith(f, FileSuffix(fileName, fileType)) ==>
             LexLe(SortKey(f), SortKey(chosen))
  {
    var filesToSort := Candidates(listing, FileSuffix(fileName, fileType));
    if filesToSort == [] then Failure(NoFileToRead)
    else
      var chosen := filesToSort[LatestIndex(filesToSort)];
      assert chosen in filesToSort;
      assert forall f :: f in filesToSort ==> LexLe(SortKey(f), SortKey(chosen));
      Success(dataRoot + "/" + folderName + "/" + chosen)
  }

  /** A name starting "7_" has the timestamp "7". */
  lemma StampSeven(name: string)
    requires |name| >= 2 && name[0] == '7' && name[1] == '_'
    ensures SortKey(name) == "7"
  {
    assert SortKey(name[1..]) == [];
  }

  /** Both names of the tie example end with "s.csv". */
  lemma TieCandidates(listing: seq<string>)
    requires listing == ["7_b_s.csv", "7_a_s.csv"]
    ensures Candidates(listing, FileSuffix("s", "csv")) == listing
  {
    var suffix := FileSuffix("s", "csv");
    assert suffix == "s.csv";
    assert EndsWith(listing[0], suffix) by {
      assert listing[0][4..] == suffix;
    }
    assert EndsWith(listing[1], suffix) by {
      assert listing[1][4..] == suffix;
    }
    assert listing[..1] == [listing[0]];
    assert listing[..1][..0] == [];
  }

  /** Two names with the same timestamp: the stable descending sort keeps the first in front. */
  lemma TieLatest(listing: seq<string>)
    requires listing == ["7_b_s.csv", "7_a_s.csv"]
    ensures LatestIndex(listing) == 0
  {
    StampSeven(listing[0]);
    StampSeven(listing[1]);
    assert listing[..1] == [listing[0]];
    assert LatestIndex(listing[..1]) == 0;
    assert LexLe("7", "7") by {
      assert "7"[1..] == [];
    }
  }

  /** Of two files stamped alike, the one listed first is read, whatever the root and folder. */
  lemma TieGoesToFirstListed(dataRoot: string, folderName: string)
    ensures InputFilePath(dataRoot, folderName, ["7_b_s.csv", "7_a_s.csv"], "s", "csv")
         == Success(dataRoot + "/" + folderName + "/" + "7_b_s.csv")
  {
    var listing := ["7_b_s.csv", "7_a_s.csv"];
    TieCandidates(listing);
    TieLatest(listing);
  }
}
