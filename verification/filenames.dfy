/**
 * The file-name handling of `read` and `write` in src/tensor.cpp: the
 * extension picks the file format, and a tensor read from a file is named
 * after the file.
 */
module FileNames {
  import opened Results

  /** The position of the last occurrence of `c` in `s`, if any (`find_last_of`). */
  function LastIndexOf(s: string, c: char): (r: Option<nat>)
    ensures r.None? <==> c !in s
    ensures r.Some? ==> r.value < |s| && s[r.value] == c && c !in s[r.value + 1..]
  {
    if |s| == 0 then None
    else if s[|s| - 1] == c then Some(|s| - 1)
    else
      var r := LastIndexOf(s[..|s| - 1], c);
      assert r.Some? ==> s[r.value + 1..] == s[..|s| - 1][r.value + 1..] + [s[|s| - 1]];
      assert r.None? ==> s == s[..|s| - 1] + [s[|s| - 1]];
      r
  }

  /** The position of the first occurrence of `c` in `s`, if any (`find_first_of`). */
  function FirstIndexOf(s: string, c: char): (r: Option<nat>)
    ensures r.None? <==> c !in s
    ensures r.Some? ==> r.value < |s| && s[r.value] == c && c !in s[..r.value]
  {
    if |s| == 0 then None
    else if s[0] == c then Some(0)
    else
      var r := FirstIndexOf(s[1..], c);
      assert r.Some? ==> s[..r.value + 1] == [s[0]] + s[1..][..r.value];
      assert r.None? ==> s == [s[0]] + s[1..];
      if r.Some? then Some(r.value + 1) else None
  }

  /** What follows the last `c` in `s`, or all of `s` when it holds no `c` (`substr(find_last_of(c) + 1)`). */
  function AfterLast(s: string, c: char): (r: string)
    ensures c !in r
    ensures c !in s ==> r == s
    ensures c in s ==> |r| < |s| && s[|s| - |r| - 1] == c && r == s[|s| - |r|..]
  {
    match LastIndexOf(s, c)
    case None => s
    case Some(p) => s[p + 1..]
  }

  /**
   * getExtension: what follows the last `.`; a name without a `.` is its
   * own extension (the position after "not found" is the start).
   */
  function GetExtension(filename: string): string
  {
    AfterLast(filename, '.')
  }

  /** The file name without its directories: what follows the last `/`. */
  function BaseName(filename: string): string
  {
    AfterLast(filename, '/')
  }

  /** A base name up to its first `.`. */
  function Stem(base: string): (stem: string)
    ensures '.' !in stem
    ensures '.' !in base ==> stem == base
    ensures '.' in base ==> |stem| < |base| && base[|stem|] == '.' && stem == base[..|stem|]
  {
    match FirstIndexOf(base, '.')
    case None => base
    case Some(p) => base[..p]
  }

  /** Every `-` replaced by `_`. */
  function Underscored(s: string): (r: string)
    ensures |r| == |s|
    ensures forall k :: 0 <= k < |s| ==> r[k] == if s[k] == '-' then '_' else s[k]
  {
    seq(|s|, k requires 0 <= k < |s| => if s[k] == '-' then '_' else s[k])
  }

  /** The name `read` gives a tensor loaded from `filename`. */
  function TensorNameOf(filename: string): (name: string)
    ensures '/' !in name && '.' !in name && '-' !in name
    ensures |name| == |Stem(BaseName(filename))|
  {
    var stem := Stem(BaseName(filename));
    var name := Underscored(stem);
    assert forall k :: 0 <= k < |name| ==> name[k] != '/' && name[k] != '.' && name[k] != '-' by {
      forall k | 0 <= k < |name| ensures name[k] != '/' && name[k] != '.' && name[k] != '-' {
        assert stem[k] in stem;
        assert stem[k] in BaseName(filename) by {
          if '.' in BaseName(filename) { assert stem[k] == BaseName(filename)[k]; }
        }
      }
    }
    name
  }

  /** A tensor read from `dir/stem.ext` is named after the stem, with dashes turned into underscores. */
  lemma TensorNameOfPath(dir: string, stem: string, ext: string)
    requires '/' !in stem && '.' !in stem && '/' !in ext
    ensures TensorNameOf(dir + "/" + stem + "." + ext) == Underscored(stem)
    ensures TensorNameOf(stem) == Underscored(stem)
  {
    var base := stem + "." + ext;
    BaseNameAfterDirectory(dir, base);
    assert dir + "/" + stem + "." + ext == dir + "/" + base;
    StemBeforeDot(stem, ext);
  }

  lemma BaseNameAfterDirectory(dir: string, base: string)
    requires '/' !in base
    ensures BaseName(dir + "/" + base) == base
  {
    LastOccurrenceAfterSeparator(dir, base, '/');
    assert dir + "/" + base == dir + ['/'] + base;
  }

  lemma StemBeforeDot(stem: string, ext: string)
    requires '.' !in stem
    ensures Stem(stem + "." + ext) == stem
  {
    var base := stem + "." + ext;
    assert base[|stem|] == '.';
    assert base[..|stem|] == stem;
  }

  /** Splitting at a separator `c` that the tail does not contain leaves the tail as what follows the last `c`. */
  lemma LastOccurrenceAfterSeparator(head: string, tail: string, c: char)
    requires c !in tail
    ensures LastIndexOf(head + [c] + tail, c) == Some(|head|)
  {
    assert (head + [c] + tail)[|head|] == c;
  }

  datatype FileType = Ttx | Tns | Mtx | Rb

  /** The reader (and writer) each file type dispatches to. */
  datatype Handler = MtxHandler | TnsHandler | RbHandler

  function HandlerFor(t: FileType): (h: Handler)
    ensures h == MtxHandler <==> t == Ttx || t == Mtx
    ensures h == TnsHandler <==> t == Tns
    ensures h == RbHandler <==> t == Rb
  {
    match t
    case Ttx => MtxHandler
    case Mtx => MtxHandler
    case Tns => TnsHandler
    case Rb => RbHandler
  }

  /** The file type an extension names; any other extension is a user error. */
  function FileTypeOf(filename: string): (r: Result<FileType>)
    ensures r.Success? <==> GetExtension(filename) in {"ttx", "tns", "mtx", "rb"}
    ensures r.Failure? ==> r.error.UserError?
    ensures r.Success? ==> (r.value == Mtx <==> GetExtension(filename) == "mtx")
    ensures r.Success? ==> (r.value == Ttx <==> GetExtension(filename) == "ttx")
    ensures r.Success? ==> (r.value == Tns <==> GetExtension(filename) == "tns")
    ensures r.Success? ==> (r.value == Rb <==> GetExtension(filename) == "rb")
  {
    var extension := GetExtension(filename);
    if extension == "ttx" then Success(Ttx)
    else if extension == "tns" then Success(Tns)
    else if extension == "mtx" then Success(Mtx)
    else if extension == "rb" then Success(Rb)
    else Failure(UserError("File extension not recognized: " + filename))
  }

  /** `read(filename, ...)`: the handler that parses the file and the name the tensor then gets. */
  function ReadDispatch(filename: string): (r: Result<(Handler, string)>)
    ensures r.Success? <==> FileTypeOf(filename).Success?
    ensures r.Failure? ==> r.error.UserError?
    ensures r.Success? ==> r.value.0 == HandlerFor(FileTypeOf(filename).value) && r.value.1 == TensorNameOf(filename)
  {
    var filetype :- FileTypeOf(filename);
    Success((HandlerFor(filetype), TensorNameOf(filename)))
  }

  /** `write(filename, tensor)`: as for reading, except that an `.mtx` file must hold a matrix. */
  function WriteDispatch(filename: string, order: nat): (r: Result<Handler>)
    ensures GetExtension(filename) == "mtx" && order != 2 ==> r.Failure? && r.error.InternalError?
    ensures r.Failure? ==> (r.error.UserError? <==> FileTypeOf(filename).Failure?)
    ensures r.Success? <==> FileTypeOf(filename).Success? && (GetExtension(filename) == "mtx" ==> order == 2)
    ensures r.Success? ==> r.value == HandlerFor(FileTypeOf(filename).value)
  {
    var filetype :- FileTypeOf(filename);
    if filetype == Mtx && order != 2 then
      Failure(InternalError("The .mtx format only supports matrices"))
    else
      Success(HandlerFor(filetype))
  }

  /** A `.ttx` file and an `.mtx` file are read by the same reader. */
  lemma TtxAndMtxShareTheReader(stem: string)
    requires '.' !in stem
    ensures ReadDispatch(stem + ".ttx").Success? && ReadDispatch(stem + ".mtx").Success?
    ensures ReadDispatch(stem + ".ttx").value.0 == ReadDispatch(stem + ".mtx").value.0 == MtxHandler
  {
    ExtensionAfterLastDot(stem, "ttx");
    ExtensionAfterLastDot(stem, "mtx");
    assert stem + ".ttx" == stem + "." + "ttx";
    assert stem + ".mtx" == stem + "." + "mtx";
    assert FileTypeOf(stem + ".ttx") == Success(Ttx);
    assert FileTypeOf(stem + ".mtx") == Success(Mtx);
  }

  /** Appending `.ext` to a name makes `ext` its extension, whatever dots the name holds. */
  lemma ExtensionAfterLastDot(name: string, ext: string)
    requires '.' !in ext
    ensures GetExtension(name + "." + ext) == ext
  {
    LastOccurrenceAfterSeparator(name, ext, '.');
    assert name + "." + ext == name + ['.'] + ext;
  }
}
