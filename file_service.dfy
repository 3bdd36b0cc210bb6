/**
 * Upload handling of the file service: extension extraction, the allow-list
 * check over the four category sets, first-match category lookup, and the
 * validation and path layout of saving an upload. The file system is modelled
 * as a map from paths to stored bytes; `secure_filename` and the UUID are inputs.
 */
module FileService {
  import opened Wrappers
  import opened Strings

  /** The allowed extensions per category, in the order the category lookup tries them. */
  const AllowedExtensions: seq<(string, set<string>)> :=
    [("images", {"png", "jpg", "jpeg", "gif", "bmp", "tiff"}),
     ("documents", {"pdf", "doc", "docx", "txt", "rtf"}),
     ("data", {"csv", "xlsx", "xls", "json"}),
     ("other", {"zip", "rar"})]

  /** The category reported for an extension found in no set. */
  const DefaultCategory: string := "other"

  /** The four categories, which are also the sub-directories of the upload folder. */
  predicate IsCategory(c: string)
  {
    c == "images" || c == "documents" || c == "data" || c == "other"
  }

  /** The table's keys are the four categories, and its sets are pairwise disjoint. */
  lemma ExtensionSetsDisjoint()
    ensures |AllowedExtensions| == 4
    ensures forall i :: 0 <= i < 4 ==> IsCategory(AllowedExtensions[i].0)
    ensures forall i, j :: 0 <= i < j < 4 ==> AllowedExtensions[i].1 !! AllowedExtensions[j].1
  {
  }

  // ---------------------------------------------------------------------------
  // Extensions
  // ---------------------------------------------------------------------------

  /** `_get_file_extension`: the lower-cased text after the last '.', or "" when there is no '.'. */
  function GetFileExtension(filename: string): string
  {
    match LastIndexOf(filename, '.')
    case None => ""
    case Some(i) => Lower(filename[i + 1..])
  }

  /** The extension of `stem.e`, for an `e` without '.', is `e` lower-cased, whatever the stem holds. */
  lemma ExtensionOfJoin(stem: string, e: string)
    requires '.' !in e
    ensures GetFileExtension(stem + "." + e) == Lower(e)
  {
    var s := stem + "." + e;
    var r := LastIndexOf(s, '.');
    assert s[|stem|] == '.';
    assert r.Some?;
    assert s[|stem| + 1..] == e;
  }

  /** A name without '.' has the empty extension, and no extension holds a '.'. */
  lemma ExtensionSpec(filename: string)
    ensures '.' !in filename ==> GetFileExtension(filename) == ""
    ensures '.' !in GetFileExtension(filename)
  {
    match LastIndexOf(filename, '.')
    case None =>
    case Some(i) =>
      var tail := filename[i + 1..];
      forall k | 0 <= k < |tail|
        ensures Lower(tail)[k] != '.'
      {
        assert tail[k] != '.';
      }
  }

  /** Examples of the rule: `file.` has the empty extension, `a.tar.GZ` has `gz`. */
  lemma ExtensionExamples()
    ensures GetFileExtension("file.") == ""
    ensures GetFileExtension("a.tar.GZ") == "gz"
    ensures GetFileExtension("README") == ""
  {
    ExtensionOfJoin("file", "");
    assert "file." == "file" + "." + "";
    ExtensionOfJoin("a.tar", "GZ");
    assert "a.tar.GZ" == "a.tar" + "." + "GZ";
    assert Lower("GZ") == "gz";
    ExtensionSpec("README");
  }

  /** Under the case tables of module Strings, extraction ignores case: an upper-cased name has the same extension. */
  lemma ExtensionIgnoresCase(filename: string)
    ensures GetFileExtension(Upper(filename)) == GetFileExtension(filename)
  {
    LastDotOfUpper(filename);
    match LastIndexOf(filename, '.')
    case None =>
    case Some(i) =>
      var tail := filename[i + 1..];
      assert Upper(filename)[i + 1..] == Upper(tail);
      LowerOfUpper(tail);
  }

  // ---------------------------------------------------------------------------
  // Allow-list and categories
  // ---------------------------------------------------------------------------

  /** The union of the extension sets of `table`. */
  function UnionOf(table: seq<(string, set<string>)>): set<string>
    decreases |table|
  {
    if table == [] then {} else UnionOf(table[..|table| - 1]) + table[|table| - 1].1
  }

  /** An extension is in the union exactly when some set of the table holds it. */
  lemma {:induction false} UnionOfSpec(table: seq<(string, set<string>)>, ext: string)
    ensures ext in UnionOf(table) <==> exists i :: 0 <= i < |table| && ext in table[i].1
    decreases |table|
  {
    if table != [] {
      var init := table[..|table| - 1];
      UnionOfSpec(init, ext);
      assert forall i :: 0 <= i < |init| ==> init[i] == table[i];
    }
  }

  /** Every extension of any category. */
  function AllExtensions(): set<string>
  {
    UnionOf(AllowedExtensions)
  }

  /** What `_is_allowed_file` decides: a non-empty name whose extension some category allows. */
  predicate Allowed(filename: string)
  {
    filename != "" && GetFileExtension(filename) in AllExtensions()
  }

  /** `_is_allowed_file`: collect the union of the category sets in a loop, then test the extension. */
  method IsAllowedFile(filename: string) returns (b: bool)
    ensures b == Allowed(filename)
    ensures b <==> filename != "" && exists i :: 0 <= i < |AllowedExtensions| && GetFileExtension(filename) in AllowedExtensions[i].1
  {
    UnionOfSpec(AllowedExtensions, GetFileExtension(filename));
    if filename == "" {
      return false;
    }
    var extension := GetFileExtension(filename);
    var allExtensions: set<string> := {};
    for i := 0 to |AllowedExtensions|
      invariant allExtensions == UnionOf(AllowedExtensions[..i])
    {
      assert AllowedExtensions[..i + 1][..i] == AllowedExtensions[..i];
      allExtensions := allExtensions + AllowedExtensions[i].1;
    }
    assert AllowedExtensions[..|AllowedExtensions|] == AllowedExtensions;
    b := extension in allExtensions;
  }

  /** The first-match loop of `_get_file_category` over `table`. */
  function FirstCategory(table: seq<(string, set<string>)>, ext: string): string
    decreases |table|
  {
    if table == [] then DefaultCategory
    else if ext in table[0].1 then table[0].0
    else FirstCategory(table[1..], ext)
  }

  /**
   * FirstCategory is a first-match search: the key of the first set holding the
   * extension, or the default when none does.
   */
  lemma {:induction false} FirstCategorySpec(table: seq<(string, set<string>)>, ext: string)
    ensures (forall i :: 0 <= i < |table| ==> ext !in table[i].1) ==> FirstCategory(table, ext) == DefaultCategory
    ensures forall i :: 0 <= i < |table| && ext in table[i].1 && (forall j :: 0 <= j < i ==> ext !in table[j].1) ==>
              FirstCategory(table, ext) == table[i].0
    decreases |table|
  {
    if table != [] {
      FirstCategorySpec(table[1..], ext);
      assert forall i :: 1 <= i < |table| ==> table[i] == table[1..][i - 1];
      forall i | 0 <= i < |table| && ext in table[i].1 && (forall j :: 0 <= j < i ==> ext !in table[j].1)
        ensures FirstCategory(table, ext) == table[i].0
      {
        if i > 0 {
          assert forall j :: 0 <= j < i - 1 ==> ext !in table[1..][j] .1 by {
            forall j | 0 <= j < i - 1 ensures ext !in table[1..][j].1 { assert table[1..][j] == table[j + 1]; }
          }
        }
      }
    }
  }

  /** `_get_file_category`: the first category, in table order, whose set holds the extension, else `other`. */
  function GetFileCategory(extension: string): (c: string)
    ensures IsCategory(c)
  {
    ExtensionSetsDisjoint();
    FirstCategorySpec(AllowedExtensions, extension);
    FirstCategory(AllowedExtensions, extension)
  }

  /** Since the sets are disjoint, an allowed extension is filed under the one category whose set holds it. */
  lemma CategoryOfAllowed(extension: string, i: nat)
    requires i < |AllowedExtensions| && extension in AllowedExtensions[i].1
    ensures GetFileCategory(extension) == AllowedExtensions[i].0
  {
    ExtensionSetsDisjoint();
    FirstCategorySpec(AllowedExtensions, extension);
    assert forall j :: 0 <= j < i ==> extension !in AllowedExtensions[j].1;
  }

  /** An extension no category allows is filed under `other`. */
  lemma CategoryOfUnknown(extension: string)
    requires extension !in AllExtensions()
    ensures GetFileCategory(extension) == DefaultCategory
  {
    UnionOfSpec(AllowedExtensions, extension);
    FirstCategorySpec(AllowedExtensions, extension);
  }

  /**
   * Under the case tables of module Strings, matching ignores case: an upper-cased
   * name is allowed, and categorised, exactly as the name itself.
   */
  lemma AllowedIgnoresCase(filename: string)
    ensures Allowed(Upper(filename)) == Allowed(filename)
    ensures GetFileCategory(GetFileExtension(Upper(filename))) == GetFileCategory(GetFileExtension(filename))
  {
    ExtensionIgnoresCase(filename);
  }

  /** `PHOTO.JPG` is allowed and filed under `images`. */
  lemma UpperCaseImage()
    ensures Allowed("PHOTO.JPG")
    ensures GetFileCategory(GetFileExtension("PHOTO.JPG")) == "images"
  {
    ExtensionOfJoin("PHOTO", "JPG");
    assert "PHOTO.JPG" == "PHOTO" + "." + "JPG";
    assert Lower("JPG") == "jpg";
    UnionOfSpec(AllowedExtensions, "jpg");
    assert "jpg" in AllowedExtensions[0].1;
    CategoryOfAllowed("jpg", 0);
  }

  // ---------------------------------------------------------------------------
  // Saving an upload
  // ---------------------------------------------------------------------------

  /** Why an upload is refused. */
  datatype UploadError =
    | NoValidFile                        // no file, or an empty file name
    | TypeNotAllowed(filename: string)   // the extension is in no category

  /** The recorded facts about a stored upload that do not depend on the file system. */
  datatype FileInfo = FileInfo(originalName: string, filename: string, path: string, category: string, extension: string)

  /** The sub-directory of `folder` for `category`. */
  function CategoryDir(folder: string, category: string): string
  {
    folder + "/" + category
  }

  /**
   * The validation and path layout of `save_uploaded_file`. `file` is the upload's
   * name (None: no upload), `secure` stands for `secure_filename` and `hex` for the
   * random UUID's hex digits.
   */
  function PlanUpload(folder: string, file: Option<string>, secure: string -> string, hex: string): Result<FileInfo, UploadError>
  {
    if file.None? || file.value == "" then Failure(NoValidFile)
    else if !Allowed(file.value) then Failure(TypeNotAllowed(file.value))
    else
      var original := secure(file.value);
      var extension := GetFileExtension(original);
      var unique := hex + "_" + original;
      var category := GetFileCategory(extension);
      Success(FileInfo(original, unique, CategoryDir(folder, category) + "/" + unique, category, extension))
  }

  /**
   * An upload is refused exactly when there is no file name or its type is not
   * allowed, and with NoValidFile exactly in the first case. A stored upload goes
   * to `<folder>/<category>/<hex>_<secure name>`, its recorded type is that same
   * category, one of the four, and the category is the one of its extension.
   */
  lemma PlanUploadSpec(folder: string, file: Option<string>, secure: string -> string, hex: string)
    ensures PlanUpload(folder, file, secure, hex).Failure? <==> file.None? || !Allowed(file.value)
    ensures PlanUpload(folder, file, secure, hex) == Failure(NoValidFile) <==> file.None? || file.value == ""
    ensures var r := PlanUpload(folder, file, secure, hex);
            r.Success? ==>
              && r.value.originalName == secure(file.value)
              && r.value.filename == hex + "_" + r.value.originalName
              && r.value.path == CategoryDir(folder, r.value.category) + "/" + r.value.filename
              && IsCategory(r.value.category)
              && r.value.extension == GetFileExtension(r.value.originalName)
              && r.value.category == GetFileCategory(r.value.extension)
  {
  }

  /** The set of category directories below `folder` for the first `n` table entries. */
  function CategoryDirs(folder: string, n: nat): set<string>
    requires n <= |AllowedExtensions|
  {
    set i | 0 <= i < n :: CategoryDir(folder, AllowedExtensions[i].0)
  }

  /** The upload folder: its directories and the files stored in it, by path. */
  class UploadFolder {
    const folder: string
    var dirs: set<string>
    var files: map<string, seq<bv8>>

    /** The folder and every category directory exist. */
    predicate Valid()
      reads this
    {
      folder in dirs && CategoryDirs(folder, |AllowedExtensions|) <= dirs
    }

    /**
     * `__init__`: make sure the folder and one sub-directory per category exist.
     * Directories and files already there, from an earlier run, are kept.
     */
    constructor (folder: string, existingDirs: set<string>, existingFiles: map<string, seq<bv8>>)
      ensures this.folder == folder
      ensures dirs == existingDirs + {folder} + CategoryDirs(folder, |AllowedExtensions|)
      ensures files == existingFiles
      ensures Valid()
    {
      this.folder := folder;
      dirs := existingDirs + {folder};
      files := existingFiles;
      new;
      for i := 0 to |AllowedExtensions|
        invariant dirs == existingDirs + {folder} + CategoryDirs(folder, i)
        invariant files == existingFiles
      {
        dirs := dirs + {CategoryDir(folder, AllowedExtensions[i].0)};
      }
    }

    /**
     * `save_uploaded_file`: refuse before storing anything when the upload is
     * invalid; otherwise store the bytes under the planned path, which lies in one
     * of the category directories.
     */
    method SaveUploadedFile(file: Option<string>, data: seq<bv8>, secure: string -> string, hex: string)
      returns (r: Result<FileInfo, UploadError>)
      requires Valid()
      modifies this
      ensures r == PlanUpload(folder, file, secure, hex)
      ensures r.Failure? ==> files == old(files)
      ensures r.Success? ==> files == old(files)[r.value.path := data]
      ensures r.Success? ==> CategoryDir(folder, r.value.category) in dirs
      ensures dirs == old(dirs)
      ensures Valid()
    {
      if file.None? || file.value == "" {
        return Failure(NoValidFile);
      }
      var allowed := IsAllowedFile(file.value);
      if !allowed {
        return Failure(TypeNotAllowed(file.value));
      }
      var originalFilename := secure(file.value);
      var fileExtension := GetFileExtension(originalFilename);
      var uniqueFilename := hex + "_" + originalFilename;
      var fileCategory := GetFileCategory(fileExtension);
      var savePath := CategoryDir(folder, fileCategory) + "/" + uniqueFilename;
      files := files[savePath := data];
      r := Success(FileInfo(originalFilename, uniqueFilename, savePath, fileCategory, fileExtension));
      CategoryDirsHold(folder, fileCategory);
    }
  }

  /** Every category has its directory among those the constructor creates. */
  lemma CategoryDirsHold(folder: string, category: string)
    requires IsCategory(category)
    ensures CategoryDir(folder, category) in CategoryDirs(folder, |AllowedExtensions|)
  {
    var i := if category == "images" then 0 else if category == "documents" then 1 else if category == "data" then 2 else 3;
    assert AllowedExtensions[i].0 == category;
  }
}
