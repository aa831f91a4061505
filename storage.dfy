/**
  The configuration store of storage.ts: one record kept under a fixed key
  in the browser's local storage, read back merged over the defaults.
 */
module Storage {
  import opened Wrappers
  import opened Types

  /** The key the configuration is stored under. */
  const StorageKey: string := "ollama-translator-config"

  /** A `Partial<TranslatorConfig>`: each field may be missing. */
  datatype PartialConfig = PartialConfig(
    ollamaPort: Option<nat>,
    ollamaHost: Option<string>,
    selectedModel: Option<string>,
    readLanguage: Option<string>,
    writeLanguage: Option<string>)

  /** The partial record with no fields. */
  const NoFields: PartialConfig := PartialConfig(None, None, None, None, None)

  /** Why saving failed: the storage write was rejected. */
  datatype StorageError = WriteRejected

  /**
    The object spread `{ ...base, ...partial }`: every field the partial
    record has replaces the one of `base`.
   */
  function Override(base: TranslatorConfig, partial: PartialConfig): (c: TranslatorConfig)
    ensures partial.ollamaPort.Some? ==> c.ollamaPort == partial.ollamaPort.value
    ensures partial.ollamaPort.None? ==> c.ollamaPort == base.ollamaPort
    ensures partial.ollamaHost.Some? ==> c.ollamaHost == partial.ollamaHost.value
    ensures partial.ollamaHost.None? ==> c.ollamaHost == base.ollamaHost
    ensures partial.selectedModel.Some? ==> c.selectedModel == partial.selectedModel.value
    ensures partial.selectedModel.None? ==> c.selectedModel == base.selectedModel
    ensures partial.readLanguage.Some? ==> c.readLanguage == partial.readLanguage.value
    ensures partial.readLanguage.None? ==> c.readLanguage == base.readLanguage
    ensures partial.writeLanguage.Some? ==> c.writeLanguage == partial.writeLanguage.value
    ensures partial.writeLanguage.None? ==> c.writeLanguage == base.writeLanguage
  {
    TranslatorConfig(
      ollamaPort := OrElse(partial.ollamaPort, base.ollamaPort),
      ollamaHost := OrElse(partial.ollamaHost, base.ollamaHost),
      selectedModel := OrElse(partial.selectedModel, base.selectedModel),
      readLanguage := OrElse(partial.readLanguage, base.readLanguage),
      writeLanguage := OrElse(partial.writeLanguage, base.writeLanguage))
  }

  /** A complete configuration as a record that has every field. */
  function Complete(c: TranslatorConfig): (p: PartialConfig)
    ensures p.ollamaPort.Some? && p.ollamaHost.Some? && p.selectedModel.Some?
    ensures p.readLanguage.Some? && p.writeLanguage.Some?
  {
    PartialConfig(Some(c.ollamaPort), Some(c.ollamaHost), Some(c.selectedModel),
                  Some(c.readLanguage), Some(c.writeLanguage))
  }

  /** An empty partial record changes nothing. */
  lemma OverrideNoFields(base: TranslatorConfig)
    ensures Override(base, NoFields) == base
  {
  }

  /** A complete record replaces everything: what was stored is what is read. */
  lemma OverrideComplete(base: TranslatorConfig, c: TranslatorConfig)
    ensures Override(base, Complete(c)) == c
  {
  }

  /** Applying the same partial record twice is applying it once. */
  lemma OverrideIdempotent(base: TranslatorConfig, partial: PartialConfig)
    ensures Override(Override(base, partial), partial) == Override(base, partial)
  {
  }

  /**
    The browser's local storage area, as far as the configuration goes:
    the records kept under each key.
   */
  class Store {
    var items: map<string, PartialConfig>

    /** A fresh store holds nothing. */
    constructor()
      ensures items == map[]
    {
      items := map[];
    }

    /**
      getConfig: the stored record merged over `DefaultConfig`; exactly
      `DefaultConfig` when nothing is stored or the read throws
      (`readFails`).
     */
    function GetConfig(readFails: bool): (c: TranslatorConfig)
      reads this
      ensures readFails || StorageKey !in items ==> c == DefaultConfig
      ensures !readFails && StorageKey in items ==> c == Override(DefaultConfig, items[StorageKey])
    {
      if readFails || StorageKey !in items then DefaultConfig
      else Override(DefaultConfig, items[StorageKey])
    }

    /**
      saveConfig: reads the current configuration, applies `partial` to it,
      stores the complete result under `StorageKey` and returns it.  When
      the write is rejected (`writeFails`) nothing is stored and the call
      fails.
     */
    method SaveConfig(partial: PartialConfig, readFails: bool, writeFails: bool)
      returns (r: Result<TranslatorConfig, StorageError>)
      modifies this
      ensures writeFails ==> r == Failure(WriteRejected) && items == old(items)
      ensures !writeFails ==> r == Success(Override(old(GetConfig(readFails)), partial))
      ensures !writeFails ==> items == old(items)[StorageKey := Complete(r.value)]
      ensures r.Success? ==> GetConfig(false) == r.value
    {
      var current := GetConfig(readFails);
      var updated := Override(current, partial);
      if writeFails {
        return Failure(WriteRejected);
      }
      items := items[StorageKey := Complete(updated)];
      OverrideComplete(DefaultConfig, updated);
      r := Success(updated);
    }
  }

  /**
    Saving the same partial record a second time stores the same record
    again: the second save reads back what the first stored and applies
    the same fields to it.
   */
  lemma SaveIdempotent(current: TranslatorConfig, partial: PartialConfig)
    ensures var first := Override(current, partial);
            Override(Override(DefaultConfig, Complete(first)), partial) == first
  {
    var first := Override(current, partial);
    OverrideComplete(DefaultConfig, first);
    OverrideIdempotent(current, partial);
  }
}
