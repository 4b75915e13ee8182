/**
 The bundle split of the build configuration (vite.config.ts): which output
 chunk a module goes to, decided by substrings of its resolved path.
 */
module ViteConfig {
  import opened Types
  import opened Text

  const ReactChunk: string := "react-vendor"
  const SupabaseChunk: string := "supabase-vendor"
  const GoogleChunk: string := "google-genai-vendor"
  const VendorChunk: string := "vendor"

  /** `manualChunks(id)`: `None` leaves the module to the bundler's default
      splitting; third-party modules go to one of four vendor chunks, the first
      matching rule winning. */
  function ManualChunks(id: string): (r: Option<string>)
    ensures r.None? <==> !Contains(id, "node_modules")
    ensures r.Some? ==> EndsWith(r.value, VendorChunk)
    ensures r == Some(ReactChunk) <==> Contains(id, "node_modules") && Contains(id, "react")
    ensures r == Some(SupabaseChunk) <==>
      Contains(id, "node_modules") && !Contains(id, "react") && Contains(id, "@supabase")
    ensures r == Some(GoogleChunk) <==>
      && Contains(id, "node_modules") && !Contains(id, "react") && !Contains(id, "@supabase")
      && (Contains(id, "@google") || Contains(id, "genai"))
    ensures r == Some(VendorChunk) <==>
      && Contains(id, "node_modules") && !Contains(id, "react") && !Contains(id, "@supabase")
      && !Contains(id, "@google") && !Contains(id, "genai")
  {
    ReactDomIsReact(id);
    if !Contains(id, "node_modules") then None
    else if Contains(id, "react") || Contains(id, "react-dom") then Some(ReactChunk)
    else if Contains(id, "@supabase") then Some(SupabaseChunk)
    else if Contains(id, "@google") || Contains(id, "genai") then Some(GoogleChunk)
    else Some(VendorChunk)
  }

  /** The `react-dom` test of the first rule never decides anything: every
      path containing `react-dom` contains `react`. */
  lemma ReactDomIsReact(id: string)
    ensures Contains(id, "react-dom") ==> Contains(id, "react")
  {
    if Contains(id, "react-dom") {
      ContainsPrefix(id, "react-dom", "react");
    }
  }

  /** A module's chunk survives longer paths around it as long as the added
      text brings in no earlier rule: third-party stays third-party, and a
      React path stays in the React chunk whatever surrounds it. */
  lemma ChunkSurvivesLongerPaths(pre: string, id: string, post: string)
    ensures ManualChunks(id).Some? ==> ManualChunks(pre + id + post).Some?
    ensures ManualChunks(id) == Some(ReactChunk) ==> ManualChunks(pre + id + post) == Some(ReactChunk)
  {
    if Contains(id, "node_modules") {
      ContainsExtended(pre, id, post, "node_modules");
      if Contains(id, "react") {
        ContainsExtended(pre, id, post, "react");
      }
    }
  }

  /** The Supabase client goes to its own chunk. */
  lemma SupabaseClientChunk(id: string, nm: string, sb: string)
    requires id == "/node_modules/@supabase/x.js"
    requires nm == "node_modules" && sb == "@supabase"
    ensures ManualChunks(id) == Some(SupabaseChunk)
  {
    assert id[1..][..12] == nm;
    assert OccursAt(id, nm, 1);
    assert OccursAt(id, sb, 14);
    assert 'r' !in id;
    AbsentLead(id, "react");
  }

  /** The Gemini client goes to the Google chunk. */
  lemma GenaiClientChunk(id: string, nm: string, gl: string)
    requires id == "/node_modules/@google/genai"
    requires nm == "node_modules" && gl == "@google"
    ensures ManualChunks(id) == Some(GoogleChunk)
  {
    assert id[1..][..12] == nm;
    assert OccursAt(id, nm, 1);
    assert OccursAt(id, gl, 14);
    assert 'r' !in id;
    AbsentLead(id, "react");
    assert forall i :: 0 <= i < |id| - 1 ==> !(id[i] == '@' && id[i + 1] == 's');
    AbsentBigram(id, "@supabase");
  }

  /** React DOM goes to the React chunk. */
  lemma ReactDomChunk(id: string, nm: string, re: string)
    requires id == "/node_modules/react-dom/x.js"
    requires nm == "node_modules" && re == "react"
    ensures ManualChunks(id) == Some(ReactChunk)
  {
    assert id[1..][..12] == nm;
    assert OccursAt(id, nm, 1);
    assert OccursAt(id, re, 14);
  }

  /** The test is a plain substring test, so any package whose path merely
      contains "react" joins the React chunk, here Preact. */
  lemma PreactJoinsReactChunk(id: string, nm: string, re: string)
    requires id == "/node_modules/preact/x.js"
    requires nm == "node_modules" && re == "react"
    ensures ManualChunks(id) == Some(ReactChunk)
  {
    assert id[1..][..12] == nm;
    assert OccursAt(id, nm, 1);
    assert OccursAt(id, re, 15);
  }

  /** The application's own sources get no manual chunk. */
  lemma AppSourceUnchunked(id: string)
    requires id == "/src/App.tsx"
    ensures ManualChunks(id).None?
  {
    assert forall i :: 0 <= i < |id| ==> id[i] != 'n';
    AbsentBigram(id, "node_modules");
  }
}
