/** `I18nManager`: the interface language, Japanese or English, and the
    lookup of interface strings with the key itself as the fallback. */
module I18n {
  import opened Wrappers

  /** The Japanese and English strings, by key. */
  const JaTable: map<string, string> := map[
    "modal-settings-title" := "設定",
    "tab-time" := "時間",
    "tab-sound" := "言語・サウンド",
    "tab-data" := "設定管理",
    "tab-license" := "ライセンス",
    "label-lecture-time" := "講義時間 (分):",
    "label-break-time" := "休憩時間 (分):",
    "label-lunch-time" := "昼休憩時間 (分):",
    "label-warning-time" := "警告タイミング (分前):",
    "label-tick-interval" := "経過通知間隔 (秒):",
    "label-language" := "言語:",
    "label-warning-sound" := "警告音:",
    "label-end-sound" := "終了音:",
    "label-tick-sound" := "経過通知音:",
    "label-volume" := "音量:",
    "btn-test" := "テスト",
    "sound-warning-1" := "予鈴音1",
    "sound-warning-2" := "予鈴音2",
    "sound-warning-3" := "予鈴音3",
    "sound-end-1" := "終了音1",
    "sound-end-2" := "終了音2",
    "sound-end-3" := "終了音3",
    "sound-tick-1" := "経過通知音1",
    "sound-tick-2" := "経過通知音2",
    "sound-tick-3" := "経過通知音3",
    "label-data-export-import" := "データのエクスポート / インポート:",
    "button-export" := "エクスポート",
    "button-import" := "インポート",
    "button-select-all" := "すべて選択",
    "heading-license" := "使用しているライブラリ等のライセンス表示",
    "tooltip-settings" := "設定",
    "tooltip-editor" := "エディタの表示/非表示",
    "tooltip-mute" := "ミュート/ミュート解除",
    "tooltip-theme" := "テーマ切り替え",
    "tooltip-fullscreen" := "全画面表示",
    "tooltip-start-lecture-break" := "講義開始",
    "tooltip-start-break1" := "休憩開始（10分）",
    "tooltip-start-break2" := "休憩開始（60分）",
    "tooltip-stop" := "停止"
  ]

  const EnTable: map<string, string> := map[
    "modal-settings-title" := "Settings",
    "tab-time" := "Time",
    "tab-sound" := "Language & Sound",
    "tab-data" := "Data",
    "tab-license" := "License",
    "label-lecture-time" := "Lecture Time (min):",
    "label-break-time" := "Break Time (min):",
    "label-lunch-time" := "Lunch Break (min):",
    "label-warning-time" := "Warning (min before):",
    "label-tick-interval" := "Overtime Interval (sec):",
    "label-language" := "Language:",
    "label-warning-sound" := "Warning Sound:",
    "label-end-sound" := "End Sound:",
    "label-tick-sound" := "Overtime Sound:",
    "label-volume" := "Volume:",
    "btn-test" := "Test",
    "sound-warning-1" := "Warning 1",
    "sound-warning-2" := "Warning 2",
    "sound-warning-3" := "Warning 3",
    "sound-end-1" := "End 1",
    "sound-end-2" := "End 2",
    "sound-end-3" := "End 3",
    "sound-tick-1" := "Overtime 1",
    "sound-tick-2" := "Overtime 2",
    "sound-tick-3" := "Overtime 3",
    "label-data-export-import" := "Export / Import:",
    "button-export" := "Export",
    "button-import" := "Import",
    "button-select-all" := "Select All",
    "heading-license" := "Library Licenses",
    "tooltip-settings" := "Settings",
    "tooltip-editor" := "Toggle Editor",
    "tooltip-mute" := "Mute/Unmute",
    "tooltip-theme" := "Toggle Theme",
    "tooltip-fullscreen" := "Fullscreen",
    "tooltip-start-lecture-break" := "Start Lecture",
    "tooltip-start-break1" := "Start Break (10min)",
    "tooltip-start-break2" := "Start Break (60min)",
    "tooltip-stop" := "Stop"
  ]

  /** The two languages the manager accepts. */
  predicate IsLanguage(lang: string) {
    lang == "ja" || lang == "en"
  }

  function Table(lang: string): map<string, string>
    requires IsLanguage(lang)
  {
    if lang == "ja" then JaTable else EnTable
  }

  /** `translations[lang][key] || key`: a missing or empty entry falls back
      to the key. */
  function Translate(lang: string, key: string): (s: string)
    requires IsLanguage(lang)
    ensures s == key || (key in Table(lang) && s == Table(lang)[key])
    ensures key !in Table(lang) ==> s == key
  {
    if key in Table(lang) && Table(lang)[key] != "" then Table(lang)[key] else key
  }

  /** Both languages name the same strings. */
  lemma TablesSameKeys()
    ensures JaTable.Keys == EnTable.Keys
  {
  }

  /** No entry is empty, so every key of the tables is translated to its
      entry, and in both languages. */
  lemma TranslateKnown(lang: string, key: string)
    requires IsLanguage(lang) && key in JaTable
    ensures key in Table(lang) && Translate(lang, key) == Table(lang)[key]
    ensures Translate(lang, key) != ""
  {
    TablesSameKeys();
  }

  /** The strings the data-management panel asks for have no entry, so they
      are shown as their keys in either language. */
  lemma DataManagerKeysUntranslated(lang: string)
    requires IsLanguage(lang)
    ensures Translate(lang, "confirm-clear-storage") == "confirm-clear-storage"
    ensures Translate(lang, "clear-storage-success") == "clear-storage-success"
  {
    NoKeyStartsWithC();
    TablesSameKeys();
    assert "confirm-clear-storage"[0] == 'c' && "clear-storage-success"[0] == 'c';
  }

  /** Every key starts with the letter of its group (`modal`, `tab`,
      `label`, `btn`/`button`, `sound`, `heading`, `tooltip`), never `c`. */
  lemma NoKeyStartsWithC()
    ensures forall k :: k in JaTable ==> k != [] && k[0] != 'c'
  {
  }

  class I18nManager {
    var currentLanguage: string

    /** Only a language the manager accepts is ever current. */
    ghost predicate Valid()
      reads this
    {
      IsLanguage(currentLanguage)
    }

    /** The constructor starts in Japanese, then `loadLanguage` with what
        storage held (`None` when nothing). */
    constructor (saved: Option<string>)
      ensures Valid()
      ensures currentLanguage == if saved.Some? && IsLanguage(saved.value) then saved.value else "ja"
    {
      currentLanguage := "ja";
      new;
      LoadLanguage(saved);
    }

    /** `loadLanguage`: a stored code is taken only when it is one of the two
        languages. */
    method LoadLanguage(saved: Option<string>)
      requires Valid()
      modifies this
      ensures Valid()
      ensures saved.Some? && IsLanguage(saved.value) ==> currentLanguage == saved.value
      ensures !(saved.Some? && IsLanguage(saved.value)) ==> currentLanguage == old(currentLanguage)
    {
      if saved.Some? && saved.value != "" && (saved.value == "ja" || saved.value == "en") {
        currentLanguage := saved.value;
      }
    }

    /** `setLanguage`: any other code is ignored. */
    method SetLanguage(lang: string)
      requires Valid()
      modifies this
      ensures Valid()
      ensures IsLanguage(lang) ==> currentLanguage == lang
      ensures !IsLanguage(lang) ==> currentLanguage == old(currentLanguage)
    {
      if lang == "ja" || lang == "en" {
        currentLanguage := lang;
      }
    }

    /** `t`: the current language's string for `key`. */
    function T(key: string): (s: string)
      reads this
      requires Valid()
      ensures key in JaTable ==> s == Table(currentLanguage)[key] && s != ""
      ensures key !in JaTable ==> s == key
    {
      TablesSameKeys();
      if key in JaTable then TranslateKnown(currentLanguage, key); Translate(currentLanguage, key) else
      Translate(currentLanguage, key)
    }
  }
}
