/** The static routing rules: which extensions are browser temp artifacts and
    which destination category each managed extension goes to. */
module Rules {

  datatype Option<T> = None | Some(value: T)

  /** The five destination folders, as distinct opaque values. */
  datatype Category = Videos | Documents | Pictures | Music | Archives

  const ImageExts: set<string> := {".jpg", ".jpeg", ".png", ".webp", ".heic"}
  const AudioExts: set<string> := {".mp3", ".wav", ".m4a"}
  const ArchiveExts: set<string> := {".zip", ".7z", ".rar"}

  /** Partial-download extensions of Chrome/Edge/Firefox. */
  const TempExts: set<string> := {".crdownload", ".part", ".tmp"}

  /** The routing table written out entry by entry: an independent statement of
      what `RouteDestination` must compute. */
  const RouteTable: map<string, Category> := map[
    ".mp4" := Videos,
    ".pdf" := Documents,
    ".jpg" := Pictures, ".jpeg" := Pictures, ".png" := Pictures,
    ".webp" := Pictures, ".heic" := Pictures,
    ".mp3" := Music, ".wav" := Music, ".m4a" := Music,
    ".zip" := Archives, ".7z" := Archives, ".rar" := Archives
  ]

  /** `route_destination`: the category folder for a lower-cased extension, or
      None for a type the sorter does not manage. Temp extensions are never
      routed. */
  function RouteDestination(ext: string): (r: Option<Category>)
    ensures r.Some? <==> ext in RouteTable
    ensures r.Some? ==> r.value == RouteTable[ext]
    ensures ext in TempExts ==> r == None
  {
    if ext == ".mp4" then Some(Videos)
    else if ext == ".pdf" then Some(Documents)
    else if ext in ImageExts then Some(Pictures)
    else if ext in AudioExts then Some(Music)
    else if ext in ArchiveExts then Some(Archives)
    else None
  }

  /** Each extension set feeds exactly one category. */
  lemma RouteBySet(ext: string)
    ensures ext in ImageExts ==> RouteDestination(ext) == Some(Pictures)
    ensures ext in AudioExts ==> RouteDestination(ext) == Some(Music)
    ensures ext in ArchiveExts ==> RouteDestination(ext) == Some(Archives)
    ensures RouteDestination(ext) == Some(Pictures) ==> ext in ImageExts
    ensures RouteDestination(ext) == Some(Music) ==> ext in AudioExts
    ensures RouteDestination(ext) == Some(Archives) ==> ext in ArchiveExts
    ensures RouteDestination(ext) == Some(Videos) <==> ext == ".mp4"
    ensures RouteDestination(ext) == Some(Documents) <==> ext == ".pdf"
  {
  }
}
