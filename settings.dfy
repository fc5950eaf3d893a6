/** The display settings and their mapping to CSS (`src/shared/utils/settings.ts`). */
module Settings {
  import opened Wrappers

  /** `fontSize` is one of `small`, `medium`, `large` when written by the settings page,
    * but whatever string is stored is read back as is. */
  datatype AppSettings = AppSettings(fontSize: string, theme: string)

  const DefaultSettings: AppSettings := AppSettings("medium", "light")

  /** `getSettings`: the defaults without storage, else the stored value or the defaults. */
  function GetSettings(storageAvailable: bool, stored: Option<AppSettings>): (settings: AppSettings)
    ensures !storageAvailable ==> settings == DefaultSettings
    ensures storageAvailable && stored.Some? ==> settings == stored.value
    ensures stored.None? ==> settings == DefaultSettings
  {
    if !storageAvailable then DefaultSettings else stored.GetOr(DefaultSettings)
  }

  /** `getFontSizeClass`. */
  function FontSizeClass(size: string): (cls: string)
    ensures cls == "text-base" <==> size != "small" && size != "large"
    ensures size == "small" ==> cls == "text-[0.9em]"
    ensures size == "large" ==> cls == "text-[1.1em]"
  {
    if size == "small" then "text-[0.9em]"
    else if size == "large" then "text-[1.1em]"
    else "text-base"
  }

  /** The pixel sizes of `sizeMap`, for the three known sizes only. */
  function SizeMapPx(size: string): (px: Option<nat>)
    ensures px.Some? <==> size in {"small", "medium", "large"}
  {
    if size == "small" then Some(14)
    else if size == "medium" then Some(16)
    else if size == "large" then Some(18)
    else None
  }

  function PxText(px: nat): string
  {
    if px == 14 then "14px" else if px == 16 then "16px" else "18px"
  }

  /** `sizeMap[settings.fontSize] || '16px'`, the root font size written to the page. */
  function RootFontSize(size: string): (css: string)
    ensures SizeMapPx(size).None? ==> css == "16px"
  {
    match SizeMapPx(size)
    case Some(px) => PxText(px)
    case None => "16px"
  }

  /** The three sizes map to strictly growing pixel values, medium to the fallback size. */
  lemma SizesIncrease()
    ensures SizeMapPx("small").value < SizeMapPx("medium").value < SizeMapPx("large").value
    ensures RootFontSize("medium") == RootFontSize("anything else") == "16px"
    ensures RootFontSize("small") == "14px" && RootFontSize("large") == "18px"
  {
  }

  /** The default settings give the medium class and the fallback root size. */
  lemma DefaultsRenderMedium(storageAvailable: bool, stored: Option<AppSettings>)
    requires !storageAvailable || stored.None?
    ensures FontSizeClass(GetSettings(storageAvailable, stored).fontSize) == "text-base"
    ensures RootFontSize(GetSettings(storageAvailable, stored).fontSize) == "16px"
  {
  }
}
