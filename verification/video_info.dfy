/** The `VideoInfo` value object: an immutable record of what the caller is
    shown. Datatype values cannot be changed after construction, which is the
    guarantee its `readonly` fields give. */
module VideoInfoValue {
  import opened Wrappers
  import opened VideoEntity

  datatype VideoInfo = VideoInfo(
    videoUrl: string,
    coverUrl: string,
    title: string,
    author: string,
    duration: int)

  /** `VideoInfo.create(...)`: the factory builds the same value as the constructor. */
  function Create(videoUrl: string, coverUrl: string, title: string, author: string,
                  duration: int): (r: VideoInfo)
    ensures r.videoUrl == videoUrl && r.coverUrl == coverUrl && r.title == title
    ensures r.author == author && r.duration == duration
  {
    VideoInfo(videoUrl, coverUrl, title, author, duration)
  }

  /** `VideoInfo.fromEntity(video)`: the URL shown is `noWatermarkUrl || url`. */
  function FromEntity(v: Video): (r: VideoInfo)
    ensures v.noWatermarkUrl.Some? && v.noWatermarkUrl.value != "" ==> r.videoUrl == v.noWatermarkUrl.value
    ensures v.noWatermarkUrl == None || v.noWatermarkUrl == Some("") ==> r.videoUrl == v.url
    ensures r.coverUrl == v.coverUrl && r.title == v.title
    ensures r.author == v.author && r.duration == v.duration
  {
    var shown := if v.noWatermarkUrl.Some? && v.noWatermarkUrl.value != "" then v.noWatermarkUrl.value else v.url;
    Create(shown, v.coverUrl, v.title, v.author, v.duration)
  }
}
