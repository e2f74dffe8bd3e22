/** The per-album manifest record that the viewer reads and the maintenance
    scripts write: one JSON object per photo. */
module Manifest {
  import opened Wrappers

  /** The six EXIF display fields, in the order the lightbox fills its slots. */
  datatype Field = Camera | Lens | Focal | Aperture | Shutter | Iso

  const Fields: seq<Field> := [Camera, Lens, Focal, Aperture, Shutter, Iso]

  /** A manifest entry. `file` is always present; every other field may be absent. */
  datatype Entry = Entry(
    file: string,
    title: Option<string>,
    camera: Option<string>,
    lens: Option<string>,
    focal: Option<string>,
    aperture: Option<string>,
    shutter: Option<string>,
    iso: Option<string>)

  /** `entry[field]` */
  function Get(e: Entry, f: Field): Option<string> {
    match f
    case Camera => e.camera
    case Lens => e.lens
    case Focal => e.focal
    case Aperture => e.aperture
    case Shutter => e.shutter
    case Iso => e.iso
  }

  /** The outcome of reading and parsing a manifest file. */
  datatype Load = Missing | ReadError | ParseError | Loaded(entries: seq<Entry>)
}
