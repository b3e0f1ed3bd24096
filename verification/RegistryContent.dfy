/** Blobs in the tables against the files of the write-once store. */
module RegistryContent {
  import opened RegistryModels
  import opened CapsuleRepository
  import opened CapsuleRegistry
  import opened UniversalNewlines
  import WormStore

  /** The file holds the text, or something that text mode reads as the text. */
  ghost predicate HasFile(files: WormStore.Files, t: string, h: string, text: string) {
    var p := WormStore.FilePath(t, h);
    p in files && (text == files[p] || text == ReadText(files[p]))
  }

  ghost predicate BlobFits(w: World, t: string, h: string)
    requires (t, h) in w.store.db.blobs
  {
    HasFile(w.files, t, h, w.store.db.blobs[(t, h)])
  }

  /** Every blob is the text of its write-once file, or what text mode reads from it. */
  ghost predicate ContentFits(w: World) {
    forall t, h :: (t, h) in w.store.db.blobs ==> BlobFits(w, t, h)
  }

  /** Storing, whether it succeeds or not, and whatever is not a blob leave blobs and files in step. */
  lemma FilesStillFit(w: World, store': Store, files': WormStore.Files)
    requires ContentFits(w) && WormStore.FilesKept(w.files, files') && store'.db.blobs == w.store.db.blobs
    ensures ContentFits(World(store', files'))
  {
    forall t, h | (t, h) in store'.db.blobs
      ensures BlobFits(World(store', files'), t, h)
    {
      assert BlobFits(w, t, h);
      assert WormStore.KeptAt(w.files, files', t, h);
    }
  }

  /** A blob added later fits the file that was stored before. */
  lemma NewBlobFits(w: World, t: string, h: string, text: string, store': Store)
    requires ContentFits(w) && HasFile(w.files, t, h, text) && store'.db.blobs == WithBlob(w.store.db, t, h, text)
    ensures ContentFits(World(store', w.files))
  {
    forall t', h' | (t', h') in store'.db.blobs
      ensures BlobFits(World(store', w.files), t', h')
    {
      if (t', h') in w.store.db.blobs {
        assert BlobFits(w, t', h');
      }
    }
  }

  /** Storing content, and then at most adding a blob with that very text, keeps blobs and files in step. */
  lemma StoringFits(w: World, t: string, h: string, text: string, db': Db)
    requires ContentFits(w)
    requires db'.blobs == w.store.db.blobs || db'.blobs == WithBlob(w.store.db, t, h, text)
    ensures var (files, stored) := WormStore.Store(w.files, t, h, text);
      stored ==> ContentFits(World(w.store.(db := db'), files))
  {
    var (files, stored) := WormStore.Store(w.files, t, h, text);
    WormStore.StoreKeeps(w.files, t, h, text);
    if db'.blobs == w.store.db.blobs {
      FilesStillFit(w, w.store.(db := db'), files);
    } else if stored {
      FilesStillFit(w, w.store, files);
      NewBlobFits(World(w.store, files), t, h, text, w.store.(db := db'));
    }
  }
}
