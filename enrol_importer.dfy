/**
 * `enrol_importer`: opens `moodle_enr.xml` like the other importers, but
 * its `import` is not written yet and completes nothing.
 */
module EnrolImport {
  import opened Php
  import opened Errors
  import opened Paths
  import opened XmlStream

  const ENROL_IMPORT_FILENAME := "moodle_enr.xml"

  /** The enrol importer's `get_filepath`: the sync directory joined to `moodle_enr.xml`. */
  function EnrolFilepath(basepath: string): (r: Result<string>)
    ensures Empty(basepath) <==> r.Err?
    ensures r.Err? ==> r.error == NoSyncPath
    ensures r.Ok? ==> NoDoubleSlash(r.value)
    ensures r.Ok? ==> Unslashed(r.value) == Unslashed(basepath) + Unslashed(ENROL_IMPORT_FILENAME)
  {
    var r := GetFilepath(basepath, ENROL_IMPORT_FILENAME);
    if r.Ok? then FilepathContent(basepath, ENROL_IMPORT_FILENAME); r else r
  }

  class EnrolImporter {
    var lastimportcount: Option<int>
    var lastsourcetimestamp: Option<int>
    const filepath: string
    const reader: XmlFile

    /** A fresh importer on an opened file: nothing seeded. */
    constructor(filepath: string, reader: XmlFile)
      ensures this.filepath == filepath && this.reader == reader
      ensures lastimportcount == None && lastsourcetimestamp == None
    {
      this.filepath := filepath;
      this.reader := reader;
      lastimportcount := None;
      lastsourcetimestamp := None;
    }

    /** `import($replicaname, $flush)`: a stub that touches nothing and reports no completed import. */
    method Import(replicaname: string, flush: bool) returns (r: Result<bool>)
      ensures r == Ok(false)
    {
      return Ok(false);
    }
  }

  /**
   * The importer's constructor: the file path from the `syncpath` setting,
   * then the file opened from the files present.
   */
  method OpenEnrolImporter(syncpath: string, files: map<string, XmlFile>) returns (r: Result<EnrolImporter>)
    ensures r.Err? <==> EnrolFilepath(syncpath).Err? || EnrolFilepath(syncpath).value !in files
    ensures r.Err? ==> r.error == if EnrolFilepath(syncpath).Err? then NoSyncPath else NoOpen(EnrolFilepath(syncpath).value)
    ensures r.Ok? ==> fresh(r.value) && r.value.filepath == EnrolFilepath(syncpath).value
                      && r.value.reader == files[r.value.filepath]
                      && r.value.lastimportcount == None && r.value.lastsourcetimestamp == None
  {
    var path := EnrolFilepath(syncpath);
    if path.Err? {
      return Err(path.error);
    }
    if path.value !in files {
      return Err(NoOpen(path.value));
    }
    var importer := new EnrolImporter(path.value, files[path.value]);
    return Ok(importer);
  }
}
