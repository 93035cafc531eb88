/** The packer back ends, seen through their interface only. */
module Packers {
  import opened Dicts

  /** A packer: `pack(packId, files, destDir)` writes its output and returns,
      for each logical id, the name of the output file that holds it;
      `virtualChildren` says that packs it includes become redundant once
      absorbed. What a packer writes to disk is not modelled. */
  datatype Packer = Packer(pack: (string, Dict<string>, string) -> Dict<string>, virtualChildren: bool)

  /** The packers by type name. */
  type Registry = map<string, Packer>

  /** The raw packer (raw-packer.js:7-19): every input becomes one output
      under the same logical id, named by the input's basename. It declares
      no `virtualChildren`, which reads as false. */
  function Raw(basename: string -> string): (p: Packer)
    ensures !p.virtualChildren
    ensures forall packId: string, files: Dict<string>, destDir: string :: p.pack(packId, files, destDir).keys == files.keys
    ensures forall packId: string, files: Dict<string>, destDir: string, k :: k in files.m ==>
      p.pack(packId, files, destDir).m[k] == basename(files.m[k])
  {
    Packer((packId: string, files: Dict<string>, destDir: string) => MapValues(files, basename), false)
  }

  /** `new Packr(packers)` (index.js:270-276): the raw packer under "raw",
      then every given packer, a given "raw" replacing the default. */
  function MakeRegistry(basename: string -> string, given: Registry): (r: Registry)
    ensures "raw" in r
    ensures forall t :: t in given ==> t in r && r[t] == given[t]
    ensures forall t :: t in r ==> t in given || t == "raw"
    ensures "raw" !in given ==> r["raw"] == Raw(basename)
  {
    map["raw" := Raw(basename)] + given
  }
}
