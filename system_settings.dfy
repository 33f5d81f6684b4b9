/** The `system_settings` key-value table and its one setting, the URL of the
    video the front page shows: read with lazy initialisation to a default,
    and overwritten by admins. */
module SystemSettings {
  import opened Common
  import opened Auth

  const VideoUrlKey: string := "video_url"
  const DefaultVideoUrl: string := "https://youtu.be/1nFE78j8Giw?si=w1TYVCKB_CD0jI11"
  const VideoUrlRequiredMessage: string := "Video URL is required"

  /** The URL a read returns: the stored value, or the default when the key
      is absent. */
  function VideoUrlOf(settings: map<string, string>): (url: string)
    ensures VideoUrlKey in settings ==> url == settings[VideoUrlKey]
    ensures VideoUrlKey !in settings ==> url == DefaultVideoUrl
  {
    if VideoUrlKey in settings then settings[VideoUrlKey] else DefaultVideoUrl
  }

  /** The table after a read: the default stored under the key when it was
      absent, and otherwise the table as it was. No other key is touched. */
  function AfterRead(settings: map<string, string>): (after: map<string, string>)
    ensures VideoUrlKey in after && after[VideoUrlKey] == VideoUrlOf(settings)
    ensures VideoUrlKey in settings ==> after == settings
    ensures after.Keys == settings.Keys + {VideoUrlKey}
    ensures forall k :: k in settings && k != VideoUrlKey ==> after[k] == settings[k]
  {
    if VideoUrlKey in settings then settings else settings[VideoUrlKey := DefaultVideoUrl]
  }

  /** Reading twice is reading once: the first read fixes the value every
      later read returns. */
  lemma ReadsAgree(settings: map<string, string>)
    ensures AfterRead(AfterRead(settings)) == AfterRead(settings)
    ensures VideoUrlOf(AfterRead(settings)) == VideoUrlOf(settings)
  {
  }

  /** After an overwrite with `url`, a read returns `url` and changes
      nothing. */
  lemma ReadAfterUpdate(settings: map<string, string>, url: string)
    ensures VideoUrlOf(settings[VideoUrlKey := url]) == url
    ensures AfterRead(settings[VideoUrlKey := url]) == settings[VideoUrlKey := url]
  {
  }

  /** The `system_settings` table. Values are never empty: the default is
      not, and an update refuses an empty URL. */
  class SettingStore {
    var settings: map<string, string>

    ghost predicate Valid()
      reads this
    {
      forall k :: k in settings ==> settings[k] != ""
    }

    constructor ()
      ensures Valid() && settings == map[]
    {
      settings := map[];
    }

    /** `get_video_url`: the stored URL, or the default, which is then
        stored. */
    method GetVideoUrl() returns (url: string)
      requires Valid()
      modifies this
      ensures Valid()
      ensures url == VideoUrlOf(old(settings)) && settings == AfterRead(old(settings))
      ensures url != "" && settings[VideoUrlKey] == url
    {
      if VideoUrlKey !in settings {
        settings := settings[VideoUrlKey := DefaultVideoUrl];
      }
      url := settings[VideoUrlKey];
    }

    /** `update_video_url`: 403 for a caller without the admin claim, 400 for
        a missing or empty URL, each changing nothing; otherwise the key is
        created or overwritten with the URL, which the reply echoes. */
    method UpdateVideoUrl(claims: Claims, newUrl: Option<string>) returns (reply: Reply<string>)
      requires Valid()
      modifies this
      ensures Valid()
      ensures !claims.isAdmin ==> reply == Err(FORBIDDEN, AdminRequiredMessage) && settings == old(settings)
      ensures claims.isAdmin && Blank(newUrl) ==>
                reply == Err(BAD_REQUEST, VideoUrlRequiredMessage) && settings == old(settings)
      ensures claims.isAdmin && !Blank(newUrl) ==>
                reply == Ok(OK, newUrl.value) && settings == old(settings)[VideoUrlKey := newUrl.value]
    {
      var denied := AdminGate<string>(claims);
      if denied.Some? {
        return denied.value;
      }
      if Blank(newUrl) {
        return Err(BAD_REQUEST, VideoUrlRequiredMessage);
      }
      // A new row when the key is absent, an assignment to its value otherwise:
      // the table ends up the same either way.
      settings := settings[VideoUrlKey := newUrl.value];
      reply := Ok(OK, settings[VideoUrlKey]);
    }

    /** An admin's update followed by a read: the read returns the new URL and
        leaves the table as the update left it. */
    method UpdateThenRead(claims: Claims, newUrl: string) returns (reply: Reply<string>, read: string)
      requires Valid() && claims.isAdmin && newUrl != ""
      modifies this
      ensures Valid() && reply == Ok(OK, newUrl) && read == newUrl
      ensures settings == old(settings)[VideoUrlKey := newUrl]
    {
      reply := UpdateVideoUrl(claims, Some(newUrl));
      read := GetVideoUrl();
    }
  }
}
