/** Names of rotated files: the extension split and the numbered file name. */
module FileNames {
  import opened Decimal

  /** Index of the last occurrence of c, or -1. */
  function LastIndexOf(s: string, c: char): (r: int)
    ensures -1 <= r < |s|
    ensures r >= 0 ==> s[r] == c
    ensures forall i :: r < i < |s| ==> s[i] != c
  {
    if s == [] then -1
    else if s[|s| - 1] == c then |s| - 1
    else LastIndexOf(s[..|s| - 1], c)
  }

  datatype Split = Split(base: string, ext: string)

  function SplitByExtension(fname: string): Split {
    var extIndex := LastIndexOf(fname, '.');
    if extIndex == -1 || extIndex == 0 || extIndex == |fname| - 1 then Split(fname, "")
    else
      var folderIndex := LastIndexOf(fname, '/');
      if folderIndex != -1 && folderIndex >= extIndex - 1 then Split(fname, "")
      else Split(fname[..extIndex], fname[extIndex..])
  }

  function CalcFilename(filename: string, index: nat): string {
    if index == 0 then filename
    else
      var parts := SplitByExtension(filename);
      parts.base + "." + ToDecimal(index) + parts.ext
  }

  /** The dot at position i starts an extension: something follows it, and what precedes it is neither empty nor the
      start of a path component (a hidden file). */
  predicate IsExtension(fname: string, i: nat) {
    && 0 < i < |fname| - 1 && fname[i] == '.' && fname[i - 1] != '/'
    && forall j :: i < j < |fname| ==> fname[j] != '.' && fname[j] != '/'
  }

  /** The two parts make up the name, and there is an extension exactly when some dot starts one. */
  lemma SplitMeaning(fname: string)
    ensures var parts := SplitByExtension(fname);
            && parts.base + parts.ext == fname
            && (parts.ext != "" <==> exists i: nat :: IsExtension(fname, i))
            && forall i: nat :: IsExtension(fname, i) ==> parts == Split(fname[..i], fname[i..])
  {
    var dot, sep := LastIndexOf(fname, '.'), LastIndexOf(fname, '/');
    if SplitByExtension(fname).ext != "" {
      assert IsExtension(fname, dot);
    }
    forall i: nat | IsExtension(fname, i)
      ensures i == dot && (sep == -1 || sep < dot - 1)
    {
    }
  }

  /** The number stands before the extension, or at the end if there is none: log.txt, log.1.txt; log, log.1. */
  lemma NumberedName(fname: string, index: nat)
    ensures CalcFilename(fname, 0) == fname
    ensures forall i: nat :: index > 0 && IsExtension(fname, i) ==>
              CalcFilename(fname, index) == fname[..i] + "." + ToDecimal(index) + fname[i..]
    ensures index > 0 && (forall i: nat :: !IsExtension(fname, i)) ==>
              CalcFilename(fname, index) == fname + "." + ToDecimal(index)
  {
    SplitMeaning(fname);
    if forall i: nat :: !IsExtension(fname, i) {
      var parts := SplitByExtension(fname);
      assert parts.base + "" == parts.base;
      assert fname + "." + ToDecimal(index) + "" == fname + "." + ToDecimal(index);
    }
  }

  lemma NumberedNameIsLonger(filename: string, index: nat)
    ensures index > 0 ==> |CalcFilename(filename, index)| > |filename|
  {
    SplitMeaning(filename);
  }

  /** Different indices give different names. */
  lemma CalcFilenameInjective(filename: string, i: nat, j: nat)
    requires CalcFilename(filename, i) == CalcFilename(filename, j)
    ensures i == j
  {
    NumberedNameIsLonger(filename, i);
    NumberedNameIsLonger(filename, j);
    if i != 0 && j != 0 {
      var parts := SplitByExtension(filename);
      var a, b := CalcFilename(filename, i), CalcFilename(filename, j);
      var from := |parts.base| + 1;
      assert a[from..|a| - |parts.ext|] == ToDecimal(i);
      assert b[from..|b| - |parts.ext|] == ToDecimal(j);
      ToDecimalInjective(i, j);
    }
  }
}

/** The file family on disk as a map from names to bytes, and what a rotation does to it. */
module Rotation {
  import opened FileNames

  type Files = map<string, string>

  /** One turn of the rotation loop: file i-1, if it exists, replaces file i. */
  function MoveUp(files: Files, base: string, i: nat): Files
    requires i > 0
  {
    var src, target := CalcFilename(base, i - 1), CalcFilename(base, i);
    if src in files then (files - {src})[target := files[src]] else files
  }

  function MoveAllUp(files: Files, base: string, n: nat): Files
    decreases n
  {
    if n == 0 then files else MoveAllUp(MoveUp(files, base, n), base, n - 1)
  }

  function RotateFiles(files: Files, base: string, maxFiles: nat): Files {
    MoveAllUp(files, base, maxFiles)[base := ""]
  }

  predicate Has(files: Files, base: string, k: nat) {
    CalcFilename(base, k) in files
  }

  function Text(files: Files, base: string, k: nat): string {
    if Has(files, base, k) then files[CalcFilename(base, k)] else ""
  }

  /** The family read from index n down to 0. */
  function Family(files: Files, base: string, n: nat): string {
    Text(files, base, n) + if n == 0 then "" else Family(files, base, n - 1)
  }

  lemma MoveUpAt(files: Files, base: string, n: nat, k: nat)
    requires n > 0
    ensures var after := MoveUp(files, base, n);
            && Has(after, base, k) == (if k == n then Has(files, base, n - 1) || Has(files, base, n)
                                       else k != n - 1 && Has(files, base, k))
            && Text(after, base, k) == if k == n && Has(files, base, n - 1) then Text(files, base, n - 1)
                                       else if k == n - 1 then "" else Text(files, base, k)
  {
    if CalcFilename(base, k) == CalcFilename(base, n) {
      CalcFilenameInjective(base, k, n);
    }
    if CalcFilename(base, k) == CalcFilename(base, n - 1) {
      CalcFilenameInjective(base, k, n - 1);
    }
    if CalcFilename(base, n) == CalcFilename(base, n - 1) {
      CalcFilenameInjective(base, n, n - 1);
    }
  }

  /** What the loop leaves at each index: every file moves up by one, and the last one is replaced only if its
      predecessor exists. */
  lemma {:induction false} MoveAllUpAt(files: Files, base: string, n: nat, k: nat)
    ensures var after := MoveAllUp(files, base, n);
            if k > n || n == 0 then
              Has(after, base, k) == Has(files, base, k) && Text(after, base, k) == Text(files, base, k)
            else if k == 0 then
              !Has(after, base, k)
            else if k < n || Has(files, base, n - 1) then
              Has(after, base, k) == Has(files, base, k - 1) && Text(after, base, k) == Text(files, base, k - 1)
            else
              Has(after, base, k) == Has(files, base, k) && Text(after, base, k) == Text(files, base, k)
    decreases n
  {
    if n > 0 {
      var one := MoveUp(files, base, n);
      MoveUpAt(files, base, n, k);
      MoveUpAt(files, base, n, n - 1);
      if k > 0 {
        MoveUpAt(files, base, n, k - 1);
      }
      if n > 1 {
        MoveUpAt(files, base, n, n - 2);
      }
      MoveAllUpAt(one, base, n - 1, k);
    }
  }

  /** Names outside the family are not touched. */
  lemma {:induction false} RotationFrame(files: Files, base: string, n: nat, name: string)
    requires forall k :: 0 <= k <= n ==> name != CalcFilename(base, k)
    ensures (name in MoveAllUp(files, base, n)) == (name in files)
    ensures name in files ==> MoveAllUp(files, base, n)[name] == files[name]
    decreases n
  {
    if n > 0 {
      assert name != CalcFilename(base, n) && name != CalcFilename(base, n - 1);
      RotationFrame(MoveUp(files, base, n), base, n - 1, name);
    }
  }

  /** What a whole rotation leaves at each index of the family. */
  lemma RotateAt(files: Files, base: string, n: nat, k: nat)
    requires k <= n
    ensures var after := RotateFiles(files, base, n);
            if k == 0 then
              Has(after, base, 0) && Text(after, base, 0) == ""
            else if k < n || Has(files, base, n - 1) then
              Has(after, base, k) == Has(files, base, k - 1) && Text(after, base, k) == Text(files, base, k - 1)
            else
              Has(after, base, k) == Has(files, base, k) && Text(after, base, k) == Text(files, base, k)
  {
    MoveAllUpAt(files, base, n, k);
    assert CalcFilename(base, 0) == base;
    if k > 0 && CalcFilename(base, k) == base {
      CalcFilenameInjective(base, k, 0);
    }
  }

  /** The lower part of the family after a rotation is the family before it, one index lower. */
  lemma {:induction false} FamilyShift(files: Files, base: string, n: nat, k: nat)
    requires k < n
    ensures Family(RotateFiles(files, base, n), base, k) == if k == 0 then "" else Family(files, base, k - 1)
  {
    RotateAt(files, base, n, k);
    if k > 0 {
      FamilyShift(files, base, n, k - 1);
      if k == 1 {
        assert Family(files, base, 0) == Text(files, base, 0) + "";
      }
    }
  }

  /** The text a rotation drops: the last file, and only when another one takes its place. */
  function Dropped(files: Files, base: string, n: nat): string {
    if n == 0 || Has(files, base, n - 1) then Text(files, base, n) else ""
  }

  /** A rotation loses exactly `Dropped`; all other text stays, in the same order. */
  lemma RotationDropsOnlyTheLast(files: Files, base: string, n: nat)
    ensures Family(files, base, n) == Dropped(files, base, n) + Family(RotateFiles(files, base, n), base, n)
  {
    if n == 0 {
      TheOnlyFileIsDropped(files, base);
    } else {
      LastAndLower(files, base, n);
      DroppedOrShifted(files, RotateFiles(files, base, n), base, n);
    }
  }

  lemma LastAndLower(files: Files, base: string, n: nat)
    requires n > 0
    ensures var after := RotateFiles(files, base, n);
            && Text(after, base, n) == (if Has(files, base, n - 1) then Text(files, base, n - 1) else Text(files, base, n))
            && Family(after, base, n - 1) == if n == 1 then "" else Family(files, base, n - 2)
  {
    RotateAt(files, base, n, n);
    FamilyShift(files, base, n, n - 1);
  }

  lemma TheOnlyFileIsDropped(files: Files, base: string)
    ensures Dropped(files, base, 0) + Family(RotateFiles(files, base, 0), base, 0) == Family(files, base, 0)
  {
    RotateAt(files, base, 0, 0);
  }

  lemma DroppedOrShifted(files: Files, after: Files, base: string, n: nat)
    requires n > 0
    requires Text(after, base, n) == if Has(files, base, n - 1) then Text(files, base, n - 1) else Text(files, base, n)
    requires Family(after, base, n - 1) == if n == 1 then "" else Family(files, base, n - 2)
    ensures Family(files, base, n) == Dropped(files, base, n) + Family(after, base, n)
  {
    var lower := Family(after, base, n - 1);
    assert Family(files, base, n - 1) == Text(files, base, n - 1) + lower;
    if Has(files, base, n - 1) {
      assert Family(after, base, n) == Family(files, base, n - 1);
    } else {
      assert Text(files, base, n - 1) + lower == lower;
    }
  }

  // ---------------------------------------------------------------- the sink as a function of its state

  datatype SinkState = SinkState(files: Files, currentSize: nat)

  /** What logging one formatted record does. */
  function Log(s: SinkState, base: string, maxSize: nat, maxFiles: nat, record: string): SinkState {
    var rotate := s.currentSize + |record| > maxSize && |Text(s.files, base, 0)| > 0;
    var files := if rotate then RotateFiles(s.files, base, maxFiles) else s.files;
    var newSize := if rotate then |record| else s.currentSize + |record|;
    SinkState(files[base := Text(files, base, 0) + record], newSize)
  }

  function LogAll(s: SinkState, base: string, maxSize: nat, maxFiles: nat, records: seq<string>): SinkState
    decreases |records|
  {
    if records == [] then s
    else LogAll(Log(s, base, maxSize, maxFiles, records[0]), base, maxSize, maxFiles, records[1..])
  }

  function Joined(records: seq<string>): string {
    if records == [] then "" else records[0] + Joined(records[1..])
  }

  predicate IsSuffix(t: string, s: string) {
    |t| <= |s| && s[|s| - |t|..] == t
  }

  lemma {:induction false} FamilyAppend(files: Files, base: string, n: nat, record: string)
    ensures Family(files[base := Text(files, base, 0) + record], base, n) == Family(files, base, n) + record
  {
    assert CalcFilename(base, 0) == base;
    if n > 0 {
      FamilyAppend(files, base, n - 1, record);
      OtherTextStays(files, base, n, record);
      Regroup(Text(files, base, n), Family(files, base, n - 1), record);
    }
  }

  lemma OtherTextStays(files: Files, base: string, k: nat, record: string)
    requires k > 0
    ensures Text(files[base := Text(files, base, 0) + record], base, k) == Text(files, base, k)
  {
    assert CalcFilename(base, 0) == base;
    if CalcFilename(base, k) == base {
      CalcFilenameInjective(base, k, 0);
    }
  }

  lemma Regroup(a: string, b: string, c: string)
    ensures a + (b + c) == (a + b) + c
  {
  }

  lemma SuffixChain(init: string, s: string, mid: string, record: string, rest: string, out: string)
    requires init == s + mid && IsSuffix(out, (mid + record) + rest)
    ensures IsSuffix(out, init + (record + rest))
  {
    assert init + (record + rest) == s + ((mid + record) + rest);
  }

  /** Reading the family always gives a suffix of its first contents followed by every record written. */
  lemma {:induction false} FamilyIsSuffixOfStream(
      s: SinkState, base: string, maxSize: nat, maxFiles: nat, records: seq<string>)
    ensures IsSuffix(Family(LogAll(s, base, maxSize, maxFiles, records).files, base, maxFiles),
                     Family(s.files, base, maxFiles) + Joined(records))
    decreases |records|
  {
    if records == [] {
      assert Family(s.files, base, maxFiles) + "" == Family(s.files, base, maxFiles);
    } else {
      var next := Log(s, base, maxSize, maxFiles, records[0]);
      var rotate := s.currentSize + |records[0]| > maxSize && |Text(s.files, base, 0)| > 0;
      var files := if rotate then RotateFiles(s.files, base, maxFiles) else s.files;
      var dropped := if rotate then Dropped(s.files, base, maxFiles) else "";
      RotationDropsOnlyTheLast(s.files, base, maxFiles);
      FamilyAppend(files, base, maxFiles, records[0]);
      FamilyIsSuffixOfStream(next, base, maxSize, maxFiles, records[1..]);
      SuffixChain(Family(s.files, base, maxFiles), dropped, Family(files, base, maxFiles), records[0],
                  Joined(records[1..]), Family(LogAll(s, base, maxSize, maxFiles, records).files, base, maxFiles));
    }
  }

  /** Within the size limit, or one of the given texts unsplit. */
  predicate Fits(text: string, maxSize: nat, whole: seq<string>) {
    |text| <= maxSize || text in whole
  }

  /** The cached size is the length of file 0, and every file of the family is within the limit or one whole text. */
  predicate Sized(s: SinkState, base: string, maxSize: nat, maxFiles: nat, whole: seq<string>) {
    && base in s.files
    && s.currentSize == |s.files[base]|
    && forall k :: 0 <= k <= maxFiles ==> Fits(Text(s.files, base, k), maxSize, whole)
  }

  lemma RotateKeepsFits(s: SinkState, base: string, maxSize: nat, maxFiles: nat, whole: seq<string>)
    requires Sized(s, base, maxSize, maxFiles, whole)
    ensures var after := RotateFiles(s.files, base, maxFiles);
            forall k :: 0 <= k <= maxFiles ==> Fits(Text(after, base, k), maxSize, whole)
  {
    forall k | 0 <= k <= maxFiles
      ensures Fits(Text(RotateFiles(s.files, base, maxFiles), base, k), maxSize, whole)
    {
      RotateAt(s.files, base, maxFiles, k);
      if k > 0 {
        assert Fits(Text(s.files, base, k - 1), maxSize, whole) && Fits(Text(s.files, base, k), maxSize, whole);
      }
    }
  }

  lemma LogKeepsSized(s: SinkState, base: string, maxSize: nat, maxFiles: nat, whole: seq<string>, record: string)
    requires Sized(s, base, maxSize, maxFiles, whole)
    ensures Sized(Log(s, base, maxSize, maxFiles, record), base, maxSize, maxFiles, whole + [record])
  {
    var r := Log(s, base, maxSize, maxFiles, record);
    var rotate := s.currentSize + |record| > maxSize && |Text(s.files, base, 0)| > 0;
    var files := if rotate then RotateFiles(s.files, base, maxFiles) else s.files;
    assert CalcFilename(base, 0) == base;
    RotateKeepsFits(s, base, maxSize, maxFiles, whole);
    RotateAt(s.files, base, maxFiles, 0);
    forall k | 0 <= k <= maxFiles
      ensures Fits(Text(r.files, base, k), maxSize, whole + [record])
    {
      assert Fits(Text(files, base, k), maxSize, whole);
      if k == 0 {
        assert Text(files, base, 0) == "" ==> Text(r.files, base, 0) == record;
      } else if CalcFilename(base, k) == base {
        CalcFilenameInjective(base, k, 0);
      }
    }
  }

  /** A record that fits is appended to file 0 and nothing else changes; there is no rotation. */
  lemma FittingRecordIsAppended(
      s: SinkState, base: string, maxSize: nat, maxFiles: nat, whole: seq<string>, record: string)
    requires Sized(s, base, maxSize, maxFiles, whole) && |s.files[base]| + |record| <= maxSize
    ensures Log(s, base, maxSize, maxFiles, record).files == s.files[base := s.files[base] + record]
  {
    assert CalcFilename(base, 0) == base;
  }

  /** Neither is there one before a record that does not fit an empty file. */
  lemma LargeRecordInEmptyFile(
      s: SinkState, base: string, maxSize: nat, maxFiles: nat, whole: seq<string>, record: string)
    requires Sized(s, base, maxSize, maxFiles, whole) && s.files[base] == ""
    ensures Log(s, base, maxSize, maxFiles, record).files == s.files[base := record]
  {
    assert CalcFilename(base, 0) == base;
    assert "" + record == record;
  }

  lemma RotatedThenWritten(
      s: SinkState, base: string, maxSize: nat, maxFiles: nat, whole: seq<string>, record: string)
    requires Sized(s, base, maxSize, maxFiles, whole)
    requires s.files[base] != "" && |s.files[base]| + |record| > maxSize
    ensures Log(s, base, maxSize, maxFiles, record).files == RotateFiles(s.files, base, maxFiles)[base := record]
  {
    assert CalcFilename(base, 0) == base;
    RotateAt(s.files, base, maxFiles, 0);
    assert "" + record == record;
  }

  lemma WrittenAt(files: Files, base: string, text: string, k: nat)
    requires k > 0
    ensures Has(files[base := text], base, k) == Has(files, base, k)
    ensures Text(files[base := text], base, k) == Text(files, base, k)
  {
    if CalcFilename(base, k) == base {
      CalcFilenameInjective(base, k, 0);
    }
  }

  /** A record that does not fit a file with contents starts a new file 0; what was in file k is in file k + 1, and the
      last file goes only if another one takes its place. */
  lemma UnfittingRecordRotates(
      s: SinkState, base: string, maxSize: nat, maxFiles: nat, whole: seq<string>, record: string, k: nat)
    requires Sized(s, base, maxSize, maxFiles, whole)
    requires s.files[base] != "" && |s.files[base]| + |record| > maxSize
    ensures var r := Log(s, base, maxSize, maxFiles, record).files;
            && base in r && r[base] == record
            && (k < maxFiles && (k + 1 < maxFiles || Has(s.files, base, k)) ==>
                  Has(r, base, k + 1) == Has(s.files, base, k) && Text(r, base, k + 1) == Text(s.files, base, k))
            && (k + 1 == maxFiles && !Has(s.files, base, k) ==>
                  Has(r, base, maxFiles) == Has(s.files, base, maxFiles)
                  && Text(r, base, maxFiles) == Text(s.files, base, maxFiles))
  {
    RotatedThenWritten(s, base, maxSize, maxFiles, whole, record);
    if k < maxFiles {
      WrittenAt(RotateFiles(s.files, base, maxFiles), base, record, k + 1);
      RotateAt(s.files, base, maxFiles, k + 1);
    }
  }

  /** It leaves the files outside the family alone. */
  lemma UnfittingRecordKeepsOthers(
      s: SinkState, base: string, maxSize: nat, maxFiles: nat, whole: seq<string>, record: string, name: string)
    requires Sized(s, base, maxSize, maxFiles, whole)
    requires s.files[base] != "" && |s.files[base]| + |record| > maxSize
    requires forall k :: 0 <= k <= maxFiles ==> name != CalcFilename(base, k)
    ensures var r := Log(s, base, maxSize, maxFiles, record).files;
            (name in r <==> name in s.files) && (name in r ==> r[name] == s.files[name])
  {
    RotatedThenWritten(s, base, maxSize, maxFiles, whole, record);
    RotationFrame(s.files, base, maxFiles, name);
    assert name != CalcFilename(base, 0);
  }

  /** Over any stream of records: the cached size stays exact and no file exceeds the limit, except one that holds
      exactly one record (or one text that was already too long when the sink was opened). */
  lemma {:induction false} FilesRespectTheLimit(
      s: SinkState, base: string, maxSize: nat, maxFiles: nat, whole: seq<string>, records: seq<string>)
    requires Sized(s, base, maxSize, maxFiles, whole)
    ensures Sized(LogAll(s, base, maxSize, maxFiles, records), base, maxSize, maxFiles, whole + records)
    decreases |records|
  {
    if records == [] {
      assert whole + records == whole;
    } else {
      LogKeepsSized(s, base, maxSize, maxFiles, whole, records[0]);
      FilesRespectTheLimit(Log(s, base, maxSize, maxFiles, records[0]), base, maxSize, maxFiles,
                           whole + [records[0]], records[1..]);
      assert (whole + [records[0]]) + records[1..] == whole + records;
    }
  }

  /** A sink that starts with no files of its family: every file is within the limit or holds exactly one record, which
      is not empty. */
  lemma FreshSinkRespectsTheLimit(
      files: Files, base: string, maxSize: nat, maxFiles: nat, records: seq<string>, k: nat)
    requires forall i :: 0 <= i <= maxFiles ==> !Has(files, base, i)
    requires k <= maxFiles
    ensures var end := LogAll(SinkState(files[base := ""], 0), base, maxSize, maxFiles, records);
            && base in end.files && end.currentSize == |end.files[base]|
            && (|Text(end.files, base, k)| <= maxSize ||
                (Text(end.files, base, k) in records && Text(end.files, base, k) != ""))
  {
    var start := SinkState(files[base := ""], 0);
    assert CalcFilename(base, 0) == base;
    forall i | 0 <= i <= maxFiles
      ensures Fits(Text(start.files, base, i), maxSize, [])
    {
      assert !Has(files, base, i);
    }
    FilesRespectTheLimit(start, base, maxSize, maxFiles, [], records);
    var end := LogAll(start, base, maxSize, maxFiles, records);
    assert [] + records == records;
    assert Fits(Text(end.files, base, k), maxSize, records);
  }
}

/** The sink itself, over a disk whose operations succeed. */
module RotatingFileSink {
  import opened FileNames
  import opened Rotation

  class Disk {
    var files: Files

    constructor (files: Files)
      ensures this.files == files
    {
      this.files := files;
    }
  }

  class FileHelper {
    const disk: Disk
    var filename: string
    var isOpen: bool

    constructor (disk: Disk)
      ensures this.disk == disk && !isOpen
    {
      this.disk := disk;
      filename, isOpen := "", false;
    }

    /** Opens for appending, creating the file if needed and emptying it first on request. */
    method Open(fname: string, truncate: bool)
      modifies this, disk
      ensures filename == fname && isOpen
      ensures disk.files == old(disk.files)[fname := if truncate || fname !in old(disk.files) then ""
                                                     else old(disk.files)[fname]]
    {
      Close();
      filename := fname;
      if truncate || fname !in disk.files {
        disk.files := disk.files[fname := ""];
      }
      isOpen := true;
    }

    method Reopen(truncate: bool)
      modifies this, disk
      ensures filename == old(filename) && isOpen
      ensures disk.files == old(disk.files)[filename := if truncate || filename !in old(disk.files) then ""
                                                        else old(disk.files)[filename]]
    {
      Open(filename, truncate);
    }

    method Close()
      modifies this`isOpen
      ensures !isOpen
    {
      isOpen := false;
    }

    method Write(text: string)
      requires isOpen && filename in disk.files
      modifies disk
      ensures disk.files == old(disk.files)[filename := old(disk.files)[filename] + text]
    {
      disk.files := disk.files[filename := disk.files[filename] + text];
    }

    method Size() returns (n: nat)
      requires isOpen && filename in disk.files
      ensures n == |disk.files[filename]|
    {
      n := |disk.files[filename]|;
    }
  }

  datatype OpenError = ZeroMaxSize | TooManyFiles

  datatype Opened = Opened(sink: RotatingSink) | Refused(error: OpenError)

  class RotatingSink {
    const baseFilename: string
    const maxSize: nat
    const maxFiles: nat
    var currentSize: nat
    const helper: FileHelper

    ghost predicate Valid()
      reads this, helper, helper.disk
    {
      && maxSize > 0 && maxFiles <= 200000
      && helper.isOpen && helper.filename == baseFilename && baseFilename in helper.disk.files
    }

    ghost function State(): SinkState
      reads this, helper, helper.disk
    {
      SinkState(helper.disk.files, currentSize)
    }

    constructor Closed(baseFilename: string, maxSize: nat, maxFiles: nat, helper: FileHelper)
      ensures this.baseFilename == baseFilename && this.maxSize == maxSize && this.maxFiles == maxFiles
      ensures this.helper == helper
    {
      this.baseFilename, this.maxSize, this.maxFiles := baseFilename, maxSize, maxFiles;
      this.helper := helper;
      currentSize := 0;
    }

    /** The constructor of the source: checks its arguments, opens file 0 and rotates it away if asked to. */
    static method Create(disk: Disk, baseFilename: string, maxSize: nat, maxFiles: nat, rotateOnOpen: bool)
      returns (r: Opened)
      modifies disk
      ensures r.Refused? <==> maxSize == 0 || maxFiles > 200000
      ensures r.Refused? ==> r.error == (if maxSize == 0 then ZeroMaxSize else TooManyFiles)
      ensures r.Refused? ==> disk.files == old(disk.files)
      ensures r.Opened? ==>
                && fresh(r.sink) && fresh(r.sink.helper) && r.sink.helper.disk == disk
                && r.sink.Valid() && r.sink.baseFilename == baseFilename
                && r.sink.maxSize == maxSize && r.sink.maxFiles == maxFiles
                && var text := if baseFilename in old(disk.files) then old(disk.files)[baseFilename] else "";
                   r.sink.State() ==
                     if rotateOnOpen && text != "" then SinkState(RotateFiles(old(disk.files), baseFilename, maxFiles), 0)
                     else SinkState(old(disk.files)[baseFilename := text], |text|)
    {
      if maxSize == 0 {
        return Refused(ZeroMaxSize);
      }
      if maxFiles > 200000 {
        return Refused(TooManyFiles);
      }
      var helper := new FileHelper(disk);
      var sink := new RotatingSink.Closed(baseFilename, maxSize, maxFiles, helper);
      helper.Open(CalcFilename(baseFilename, 0), false);
      sink.currentSize := helper.Size();
      if rotateOnOpen && sink.currentSize > 0 {
        assert disk.files == old(disk.files);
        sink.Rotate();
        sink.currentSize := 0;
      }
      return Opened(sink);
    }

    /** Deletes the target if it exists and renames the source file to it; fails when there is no source file left, with
        the target deleted all the same. */
    method RenameFile(src: string, target: string) returns (ok: bool)
      modifies helper.disk
      ensures ok <==> src in old(helper.disk.files) && src != target
      ensures helper.disk.files ==
                if ok then (old(helper.disk.files) - {src})[target := old(helper.disk.files)[src]]
                else old(helper.disk.files) - {target}
    {
      helper.disk.files := helper.disk.files - {target};
      if src !in helper.disk.files {
        return false;
      }
      helper.disk.files := (helper.disk.files - {src})[target := helper.disk.files[src]];
      return true;
    }

    method Rotate()
      requires Valid()
      modifies helper, helper.disk
      ensures Valid()
      ensures helper.disk.files == RotateFiles(old(helper.disk.files), baseFilename, maxFiles)
    {
      helper.Close();
      var i := maxFiles;
      while i > 0
        invariant 0 <= i <= maxFiles
        invariant helper.filename == baseFilename
        invariant MoveAllUp(helper.disk.files, baseFilename, i) == MoveAllUp(old(helper.disk.files), baseFilename, maxFiles)
      {
        var src := CalcFilename(baseFilename, i - 1);
        if src in helper.disk.files {
          var target := CalcFilename(baseFilename, i);
          if src == target {
            CalcFilenameInjective(baseFilename, i - 1, i);
          }
          var _ := RenameFile(src, target);
        }
        i := i - 1;
      }
      helper.Reopen(true);
    }

    method SinkIt(formatted: string)
      requires Valid()
      modifies this`currentSize, helper, helper.disk
      ensures Valid() && State() == Log(old(State()), baseFilename, maxSize, maxFiles, formatted)
    {
      var newSize := currentSize + |formatted|;
      assert CalcFilename(baseFilename, 0) == baseFilename;
      if newSize > maxSize {
        var size := helper.Size();
        if size > 0 {
          Rotate();
          newSize := |formatted|;
        }
      }
      helper.Write(formatted);
      currentSize := newSize;
    }
  }
}
