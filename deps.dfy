/** The records the collector works on: one `DependencyInfo` per dependency
    and one `LicenseHashInfo` per license group. */
module Deps {

  datatype Option<T> = None | Some(value: T)

  newtype byte = x: int | 0 <= x < 256

  /** The raw content of a file. */
  type Bytes = seq<byte>

  /** One dependency: its module path and version as listed, what the license
      detector found, the content hashes of its license and notice files, and
      the names under which a group representative's files are copied. An
      empty string means "not set". */
  datatype DependencyInfo = DependencyInfo(
    name: string,
    version: string,
    licenseName: string,
    licenseFullName: string,
    licenseHash: string,
    licensePath: string,
    noticePath: string,
    noticeHash: string,
    newNoticeName: string,
    newLicenseName: string)

  /** A record as the lister creates it: only name and version are set. */
  function Listed(name: string, version: string): (d: DependencyInfo)
    ensures d.name == name && d.version == version
    ensures d.licenseHash == "" && d.noticeHash == ""
  {
    DependencyInfo(name, version, "", "", "", "", "", "", "", "")
  }

  /** The sort key and group key of one license group. */
  datatype LicenseHashInfo = LicenseHashInfo(licenseName: string, licenseHash: string)

  /** The license hashes of the records, in record order. */
  function LicenseKeys(recs: seq<DependencyInfo>): (keys: seq<string>)
    ensures |keys| == |recs|
    ensures forall i :: 0 <= i < |recs| ==> keys[i] == recs[i].licenseHash
  {
    seq(|recs|, i requires 0 <= i < |recs| => recs[i].licenseHash)
  }

  /** The notice hashes of the records, in record order. */
  function NoticeKeys(recs: seq<DependencyInfo>): (keys: seq<string>)
    ensures |keys| == |recs|
    ensures forall i :: 0 <= i < |recs| ==> keys[i] == recs[i].noticeHash
  {
    seq(|recs|, i requires 0 <= i < |recs| => recs[i].noticeHash)
  }
}
