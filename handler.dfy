/**
 * The control flow of `auto_rename_files` (plugins/file_rename.py): which
 * early return is taken, when the `renaming_operations` entry is stamped and
 * deleted, and which temporary paths are removed on the way out.
 *
 * Everything that talks to Telegram, the database or the disk is a
 * parameter: the stored template, media preference and custom thumbnail,
 * whether the download, the caption's `str.format` and the upload raise,
 * and the path the thumbnail download returns. Reply texts, progress
 * messages, the caption's text and the duration probe change none of the
 * above and are not modelled.
 */
module Handler {
  import opened Wrappers
  import opened Rename
  import Operations

  /** The part of an incoming message the handler looks at. */
  datatype Message = Message(kind: Kind, fileId: string, fileName: string, hasVideoThumbs: bool)

  /** What the outside world does during one call. */
  datatype Environment = Environment(
    downloadOk: bool,                // `client.download_media` of the file returns instead of raising
    customThumb: Option<string>,     // `get_thumbnail`: the stored thumbnail's file id, if any
    thumbPath: Option<string>,       // what `download_media` returns for a thumbnail, when one is fetched
    storedCaption: Option<string>,   // `get_caption`: the stored caption template, if any
    captionFormats: bool,            // `str.format` of the stored caption returns instead of raising
    uploadOk: bool)                  // the `send_*` call returns instead of raising

  /** How the call ends. */
  datatype Outcome =
    | NoTemplate          // no format template stored: a reply, nothing else
    | UnsupportedKind     // neither document, video nor audio: a reply, nothing else
    | Ignored             // a recent duplicate of a file being renamed
    | DownloadFailed      // the download raised: the error is shown
    | CaptionCrash        // the stored caption has an unknown field or a stray brace: `str.format` raises
    | ThumbnailCrash      // `message.video.thumbs` on a message without a video raises AttributeError
    | UploadFailed        // the upload raised: the error is shown
    | Finished(sent: bool) // the normal end; `sent` is false when the media type names no upload call

  /** The media types the handler has an upload call for. */
  predicate Sendable(mediaType: string) {
    mediaType == "document" || mediaType == "video" || mediaType == "audio"
  }

  /**
   * Lines 221-226: the stored caption is formatted only when it is truthy,
   * and the default caption cannot raise.
   */
  predicate CaptionRaises(env: Environment) {
    Truthy(env.storedCaption) && !env.captionFormats
  }

  /** Lines 229-238: the thumbnail path, or None, and whether reading `message.video.thumbs` raised. */
  function Thumbnail(msg: Message, mediaType: string, env: Environment): (r: (Option<string>, bool))
    ensures r.1 <==> !Truthy(env.customThumb) && mediaType == "video" && msg.kind != Video
    ensures r.0.Some? ==> r.0 == env.thumbPath
    ensures Truthy(env.customThumb) ==> r.0 == env.thumbPath
    ensures !r.1 ==> r.0 == (if Truthy(env.customThumb) || (mediaType == "video" && msg.kind == Video && msg.hasVideoThumbs)
                             then env.thumbPath else None)
  {
    if Truthy(env.customThumb) then (env.thumbPath, false)
    else if mediaType == "video" then
      if msg.kind != Video then (None, true)
      else if msg.hasVideoThumbs then (env.thumbPath, false)
      else (None, false)
    else (None, false)
  }

  /** The temporary paths removed once the file is downloaded: the file, then the thumbnail if there is one. */
  function Cleanup(filePath: string, phPath: Option<string>): (r: seq<string>)
    ensures |r| >= 1 && r[0] == filePath
    ensures |r| == 2 <==> Truthy(phPath)
    ensures |r| <= 2
    ensures |r| == 2 ==> r[1] == phPath.value
  {
    [filePath] + if Truthy(phPath) then [phPath.value] else []
  }

  /**
   * Lines 194-282, once the entry for the file is stamped: download to
   * `filePath`, build the caption, fetch the thumbnail, upload, remove the
   * temporary files and delete the entry.
   */
  method Transfer(ops: Operations.RenamingOperations, msg: Message, mediaType: string, filePath: string, env: Environment)
    returns (outcome: Outcome, removed: seq<string>)
    requires msg.fileId in ops.stamps
    modifies ops
    ensures outcome.DownloadFailed? || outcome.CaptionCrash? || outcome.ThumbnailCrash?
            || outcome.UploadFailed? || outcome.Finished?
    ensures outcome == DownloadFailed <==> !env.downloadOk
    ensures outcome == CaptionCrash <==> env.downloadOk && CaptionRaises(env)
    ensures outcome == ThumbnailCrash <==> env.downloadOk && !CaptionRaises(env) && Thumbnail(msg, mediaType, env).1
    ensures outcome == CaptionCrash || outcome == ThumbnailCrash ==> ops.stamps == old(ops.stamps)
    ensures outcome != CaptionCrash && outcome != ThumbnailCrash ==> ops.stamps == old(ops.stamps) - {msg.fileId}
    ensures outcome == DownloadFailed || outcome == CaptionCrash || outcome == ThumbnailCrash ==> removed == []
    ensures outcome.UploadFailed? || outcome.Finished? ==>
              removed == Cleanup(filePath, Thumbnail(msg, mediaType, env).0)
              && (outcome.UploadFailed? <==> Sendable(mediaType) && !env.uploadOk)
              && (outcome.Finished? ==> outcome.sent == Sendable(mediaType))
  {
    removed := [];
    if !env.downloadOk {
      ops.Release(msg.fileId);
      return DownloadFailed, removed;
    }

    if CaptionRaises(env) {
      return CaptionCrash, removed;
    }

    var (phPath, crash) := Thumbnail(msg, mediaType, env);
    if crash {
      return ThumbnailCrash, removed;
    }

    removed := Cleanup(filePath, phPath);
    ops.Release(msg.fileId);
    var sent := Sendable(mediaType);
    if sent && !env.uploadOk {
      return UploadFailed, removed;
    }
    return Finished(sent), removed;
  }

  /**
   * Lines 120-282 with the transport as inputs. `removed` lists the paths
   * `os.remove` is called on, in order.
   */
  method AutoRename(ops: Operations.RenamingOperations, msg: Message, template: Option<string>,
                    preference: Option<string>, now: int, env: Environment)
    returns (outcome: Outcome, removed: seq<string>)
    modifies ops
    // the two early replies leave the table alone
    ensures outcome == NoTemplate <==> !Truthy(template)
    ensures outcome == UnsupportedKind <==> Truthy(template) && msg.kind == OtherKind
    ensures outcome == NoTemplate || outcome == UnsupportedKind ==> ops.stamps == old(ops.stamps) && removed == []
    // a recent duplicate is dropped, and nothing changes
    ensures outcome == Ignored <==> Truthy(template) && msg.kind != OtherKind && old(ops.Recent(msg.fileId, now))
    ensures outcome == Ignored ==> ops.stamps == old(ops.stamps) && removed == []
    // an admitted file ends in one of the transfer's exits, each decided by the environment
    ensures Truthy(template) && msg.kind != OtherKind && !old(ops.Recent(msg.fileId, now)) ==>
              var mediaType := MediaType(msg.kind, preference);
              (outcome.DownloadFailed? || outcome.CaptionCrash? || outcome.ThumbnailCrash?
               || outcome.UploadFailed? || outcome.Finished?)
              && (outcome == DownloadFailed <==> !env.downloadOk)
              && (outcome == CaptionCrash <==> env.downloadOk && CaptionRaises(env))
              && (outcome == ThumbnailCrash <==> env.downloadOk && !CaptionRaises(env) && Thumbnail(msg, mediaType, env).1)
    // every exit after the stamp but the two crashes deletes the entry
    ensures outcome.DownloadFailed? || outcome.UploadFailed? || outcome.Finished? ==>
              ops.stamps == old(ops.stamps) - {msg.fileId}
    ensures outcome == CaptionCrash || outcome == ThumbnailCrash ==>
              ops.stamps == old(ops.stamps)[msg.fileId := now] && removed == []
    // the download failing removes no file at all
    ensures outcome == DownloadFailed ==> removed == []
    // after the download, the file and any thumbnail are removed on both remaining exits
    ensures outcome.UploadFailed? || outcome.Finished? ==>
              var mediaType := MediaType(msg.kind, preference);
              var filePath := "downloads/" + NewFileName(template.value, WorkingName(msg.kind, msg.fileName).value);
              var (phPath, crash) := Thumbnail(msg, mediaType, env);
              env.downloadOk && !CaptionRaises(env) && !crash && removed == Cleanup(filePath, phPath)
              && (outcome.UploadFailed? <==> Sendable(mediaType) && !env.uploadOk)
              && (outcome.Finished? ==> outcome.sent == Sendable(mediaType))
  {
    removed := [];
    if !Truthy(template) {
      return NoTemplate, removed;
    }
    var fileName := WorkingName(msg.kind, msg.fileName);
    if fileName.None? {
      return UnsupportedKind, removed;
    }
    var mediaType := MediaType(msg.kind, preference);

    var admitted := ops.Admit(msg.fileId, now);
    if !admitted {
      return Ignored, removed;
    }

    var _, filePath := RenderName(template.value, fileName.value);
    outcome, removed := Transfer(ops, msg, mediaType, filePath, env);
  }
}
