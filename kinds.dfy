/** The type `computeFileInfos` records for a file from its extension
    (index.js:144-159). The extension is what `path.extname` returns: empty,
    or a dot followed by the rest of the name; `path.extname` itself is not
    part of this model. */
module Kinds {

  const ImageExtensions: seq<string> := [".jpeg", ".jpg", ".png", ".gif"]
  const TextExtensions: seq<string> := [".html", ".txt"]

  /** An extension of the table: the ones with a type of their own. */
  predicate Listed(ext: string)
  {
    ext in ImageExtensions || ext == ".json" || ext in TextExtensions || ext == ".xml" || ext == ".pack"
  }

  /** The recorded type: the table's entry for the extension, compared
      exactly (case matters), otherwise the extension without its first
      character. For an extension as `path.extname` returns it, a type names
      exactly the extensions that carry it: those of its table row, plus the
      extension spelled after the type itself, which falls through the table
      to the same name. */
  function FileType(ext: string): (t: string)
    ensures Listed(ext) ==> t in ["image", "json", "text", "xml", "arraybuffer"]
    ensures !Listed(ext) && ext != [] ==> [ext[0]] + t == ext
    ensures ext == [] ==> t == []
    ensures ext == [] || ext[0] == '.' ==>
      && (t == "image" <==> ext in ImageExtensions || ext == ".image")
      && (t == "json" <==> ext == ".json")
      && (t == "text" <==> ext in TextExtensions || ext == ".text")
      && (t == "xml" <==> ext == ".xml")
      && (t == "arraybuffer" <==> ext == ".pack" || ext == ".arraybuffer")
  {
    if ext in ImageExtensions then "image"
    else if ext == ".json" then "json"
    else if ext in TextExtensions then "text"
    else if ext == ".xml" then "xml"
    else if ext == ".pack" then "arraybuffer"
    else if ext == [] then []
    else
      var t := ext[1..];
      assert ext == [ext[0]] + t;
      if ext[0] == '.' then
        assert t == "image" <==> ext == ".image";
        assert t == "text" <==> ext == ".text";
        assert t == "arraybuffer" <==> ext == ".arraybuffer";
        t
      else t
  }

  /** Example: the table compares extensions exactly, so an upper-case
      image extension is typed by its own letters. */
  lemma CaseMatters()
    ensures FileType(".PNG") == "PNG" && FileType(".png") == "image"
  {
    assert ".PNG" !in ImageExtensions;
  }
}
