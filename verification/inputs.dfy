/**
 * Input acceptance and selection: the media-type gate of `handleFileProcessing`
 * and the first-match searches of the file picker, drop and paste handlers.
 */
module Inputs {
  import opened Wrappers

  /** A user-provided file: its name, declared media type and byte length. */
  datatype File = File(name: string, mime: string, size: nat)

  /**
   * An entry of a drag-and-drop or clipboard payload. A file entry has kind
   * "file" and carries its file (whose type is the entry's type); a string
   * entry has kind "string", a declared type of its own and no file.
   */
  datatype Item = FileItem(file: File) | StringItem(stringType: string)
  {
    function Kind(): string {
      if FileItem? then "file" else "string"
    }

    function Type(): string {
      if FileItem? then file.mime else stringType
    }

    /** The platform's `getAsFile()`: the file of a file entry, nothing otherwise. */
    function AsFile(): (r: Option<File>)
      ensures r.Some? <==> Kind() == "file"
      ensures r.Some? ==> r.value.mime == Type()
    {
      if FileItem? then Some(file) else None
    }
  }

  /** JavaScript's `s.startsWith(prefix)`: case-sensitive, character by character. */
  predicate StartsWith(s: string, prefix: string)
    ensures StartsWith(s, prefix) <==>
      |prefix| <= |s| && forall i :: 0 <= i < |prefix| ==> s[i] == prefix[i]
  {
    |prefix| <= |s| && s[..|prefix|] == prefix
  }

  const ImagePrefix: string := "image/"

  /** The media-type test of every handler: the type begins with "image/". */
  predicate IsImageType(mime: string) {
    StartsWith(mime, ImagePrefix)
  }

  /** `s` starts with `prefix` exactly when `s` is `prefix` followed by something. */
  lemma StartsWithIffConcat(s: string, prefix: string)
    ensures StartsWith(s, prefix) <==> exists rest :: s == prefix + rest
  {
    if StartsWith(s, prefix) {
      assert s == prefix + s[|prefix|..];
    }
    if exists rest :: s == prefix + rest {
      var rest :| s == prefix + rest;
      assert s[..|prefix|] == prefix;
    }
  }

  /** The gate of `handleFileProcessing`: a file is present and is an image. */
  predicate Accepts(file: Option<File>)
    ensures Accepts(file) ==> file.Some? && |file.value.mime| >= |ImagePrefix|
    ensures file.Some? && |file.value.mime| < |ImagePrefix| ==> !Accepts(file)
  {
    file.Some? && IsImageType(file.value.mime)
  }

  /** Every file whose type is "image/" followed by anything passes the gate; no other file does. */
  lemma AcceptsIffImageSubtype(f: File)
    ensures Accepts(Some(f)) <==> exists subtype :: f.mime == ImagePrefix + subtype
    ensures !Accepts(None)
  {
    StartsWithIffConcat(f.mime, ImagePrefix);
  }

  /** `Array.prototype.find` as an index: the first position whose element satisfies `p`. */
  function FindFirst<T>(s: seq<T>, p: T -> bool): (r: Option<nat>)
    ensures r.Some? ==> r.value < |s| && p(s[r.value])
    ensures r.Some? ==> forall j :: 0 <= j < r.value ==> !p(s[j])
    ensures r.None? <==> forall j :: 0 <= j < |s| ==> !p(s[j])
  {
    if s == [] then None
    else if p(s[0]) then Some(0)
    else
      match FindFirst(s[1..], p)
      case None => None
      case Some(i) => Some(i + 1)
  }

  /** The drop handler's filter: an entry of kind "file" whose type is an image type. */
  predicate IsDropCandidate(item: Item) {
    item.Kind() == "file" && IsImageType(item.Type())
  }

  /** The paste handler's filter: any entry whose type is an image type, whatever its kind. */
  predicate IsPasteCandidate(item: Item) {
    IsImageType(item.Type())
  }

  /** The file the drop handler hands on: `getAsFile()` of the first drop candidate, if any. */
  function DropSelection(items: seq<Item>): (r: Option<File>)
    ensures (forall i :: 0 <= i < |items| ==> !IsDropCandidate(items[i])) ==> r.None?
    ensures forall i :: 0 <= i < |items| && IsDropCandidate(items[i])
                        && (forall j :: 0 <= j < i ==> !IsDropCandidate(items[j])) ==>
                        r == Some(items[i].file)
    ensures r.Some? ==> Accepts(r)
  {
    match FindFirst(items, IsDropCandidate)
    case None => None
    case Some(i) => items[i].AsFile()
  }

  /**
   * The file the paste handler hands on: `getAsFile()` of the first entry with an
   * image type. When that entry is a string entry the result is nothing, even if a
   * later entry is an image file.
   */
  function PasteSelection(items: seq<Item>): (r: Option<File>)
    ensures (forall i :: 0 <= i < |items| ==> !IsPasteCandidate(items[i])) ==> r.None?
    ensures forall i :: 0 <= i < |items| && IsPasteCandidate(items[i])
                        && (forall j :: 0 <= j < i ==> !IsPasteCandidate(items[j])) ==>
                        r == items[i].AsFile()
    ensures r.Some? ==> Accepts(r)
  {
    match FindFirst(items, IsPasteCandidate)
    case None => None
    case Some(i) => items[i].AsFile()
  }

  /** The file picker hands on `files[0]`, which is `undefined` for an empty selection. */
  function PickedSelection(files: seq<File>): (r: Option<File>)
    ensures r.None? <==> files == []
    ensures r.Some? ==> r.value == files[0]
  {
    if files == [] then None else Some(files[0])
  }

  /** The picker's file passes the gate exactly when the selection's first file is an image. */
  lemma PickedAcceptedIffFirstIsImage(files: seq<File>)
    ensures Accepts(PickedSelection(files)) <==> files != [] && IsImageType(files[0].mime)
    ensures files != [] && IsImageType(files[0].mime) ==> PickedSelection(files) == Some(files[0])
  {
  }

  /** Filters that agree on every element find the same first match. */
  lemma {:induction false} FindFirstRespectsAgreement<T>(s: seq<T>, p: T -> bool, q: T -> bool)
    requires forall i :: 0 <= i < |s| ==> p(s[i]) == q(s[i])
    ensures FindFirst(s, p) == FindFirst(s, q)
  {
    if s != [] && !p(s[0]) {
      FindFirstRespectsAgreement(s[1..], p, q);
    }
  }

  /** On a payload made only of file entries, drop and paste select the same file. */
  lemma DropAgreesWithPasteOnFiles(items: seq<Item>)
    requires forall i :: 0 <= i < |items| ==> items[i].FileItem?
    ensures DropSelection(items) == PasteSelection(items)
  {
    FindFirstRespectsAgreement(items, IsDropCandidate, IsPasteCandidate);
  }

  /**
   * Paste stops at the first image-typed entry: a string entry with an image type
   * in front hides an image file behind it, while drop still finds that file.
   */
  lemma PasteStopsAtImageTypedString(t: string, f: File)
    requires IsImageType(t) && IsImageType(f.mime)
    ensures PasteSelection([StringItem(t), FileItem(f)]) == None
    ensures DropSelection([StringItem(t), FileItem(f)]) == Some(f)
  {
    var items := [StringItem(t), FileItem(f)];
    assert !IsDropCandidate(items[0]) && IsDropCandidate(items[1]);
  }
}
